/** From a notification configuration to its rules map, and looking an object up in it. */
module Configuration {
  import opened Wrappers
  import opened Wildcard
  import opened FilterPattern
  import opened Resources
  import opened RulesIndex
  import opened RulesMaps
  import opened RulesMapBuilder

  method NewRulesMap(names: seq<EventName>, pattern: string, resource: Resource) returns (rulesMap: RulesMap)
    ensures rulesMap.Valid() && fresh(rulesMap) && fresh(rulesMap.Repr)
    ensures rulesMap.Value() == RulesIndex.AddNames(map[], ExpandAll(names), EffectivePattern(pattern), resource)
  {
    var p := pattern;
    if p == "" {
      p := "*";
    }
    rulesMap := new RulesMap();
    rulesMap.AddNames(names, p, resource);
  }

  /** Queue.ToRulesMap and Topic.ToRulesMap. */
  method SubscriptionRules(s: Subscription) returns (rulesMap: RulesMap)
    ensures rulesMap.Valid() && fresh(rulesMap) && fresh(rulesMap.Repr)
    ensures rulesMap.Value() == SubscriptionIndex(s)
  {
    var pattern := Pattern(s.rules);
    var names := seq(|s.events|, _ => NO_EVENT);
    for i := 0 to |s.events|
      invariant names == seq(|s.events|, _ => NO_EVENT) + s.events[..i]
    {
      names := names + [s.events[i]];
    }
    assert s.events[..|s.events|] == s.events;
    rulesMap := NewRulesMap(names, pattern, s.resource);
  }

  /** The rules map is where the record of additions ends. */
  ghost predicate Traced(rulesMap: RulesMap, parts: seq<Index>, values: seq<Index>)
    reads rulesMap, rulesMap.Repr
  {
    rulesMap.Valid() && Trace(AddIndex, map[], parts, values) && values[|parts|] == rulesMap.Value()
  }

  /** One of the two loops of Config.ToRulesMap; `values` records what the map was in between. */
  method AddAll(rulesMap: RulesMap, subscriptions: seq<Subscription>, ghost parts: seq<Index>, ghost values: seq<Index>)
    returns (ghost parts': seq<Index>, ghost values': seq<Index>)
    requires Traced(rulesMap, parts, values)
    modifies rulesMap, rulesMap.Repr
    ensures parts' == parts + Parts(subscriptions)
    ensures Traced(rulesMap, parts', values') && fresh(rulesMap.Repr - old(rulesMap.Repr))
  {
    parts', values' := parts, values;
    ghost var all := Parts(subscriptions);
    for i := 0 to |subscriptions|
      invariant |all| == |subscriptions| && parts' == parts + all[..i]
      invariant Traced(rulesMap, parts', values') && fresh(rulesMap.Repr - old(rulesMap.Repr))
    {
      var added := SubscriptionRules(subscriptions[i]);
      ghost var part := added.Value();
      PartAt(subscriptions, i);
      rulesMap.Add(added);
      TraceMore(AddIndex, map[], parts', values', part, rulesMap.Value());
      parts', values' := parts' + [part], values' + [rulesMap.Value()];
    }
    assert all[..|subscriptions|] == all;
  }

  lemma TraceMore<T>(f: (T, T) -> T, zero: T, parts: seq<T>, values: seq<T>, part: T, value: T)
    requires Trace(f, zero, parts, values) && value == f(values[|parts|], part)
    ensures Trace(f, zero, parts + [part], values + [value])
  {
  }

  method ConfigRules(config: Config) returns (rulesMap: RulesMap)
    ensures rulesMap.Valid() && fresh(rulesMap) && fresh(rulesMap.Repr)
    ensures rulesMap.Value() == ConfigIndex(config)
  {
    rulesMap := new RulesMap();
    ghost var queues, between := AddAll(rulesMap, config.queues, [], [map[]]);
    ghost var parts, values := AddAll(rulesMap, config.topics, queues, between);
    TraceEnds(AddIndex, map[], parts, values);
    assert queues == Parts(config.queues);
  }

  /** The inner loop of Match. */
  method TakeAll(before: seq<Resource>, resources: Slice) returns (matched: seq<Resource>)
    requires Fits(resources)
    ensures matched == before + Items(resources)
  {
    matched := before;
    var count := if resources.Slice? then resources.len else 0;
    for j := 0 to count
      invariant matched == before + Items(resources)[..j]
    {
      matched := matched + [resources.store[j]];
    }
    assert Items(resources)[..count] == Items(resources);
  }

  /** What has been matched and what the remaining patterns still match make up everything found. */
  ghost predicate MatchedSoFar(view: Rules, remaining: set<string>, name: string, matched: seq<Resource>) {
    forall r :: multiset(matched)[r] + Hits(view, remaining, name, r) == Found(view, name, r)
  }

  lemma MatchedMore(view: Rules, remaining: set<string>, name: string, matched: seq<Resource>, p: string)
    requires MatchedSoFar(view, remaining, name, matched) && p in remaining
    ensures MatchedSoFar(view, remaining - {p}, name,
                         if MatchSimple(p, name) == Yes then matched + Get(view, p) else matched)
  {
    var more := if MatchSimple(p, name) == Yes then matched + Get(view, p) else matched;
    forall r ensures multiset(more)[r] + Hits(view, remaining - {p}, name, r) == Found(view, name, r) {
      HitsWithout(view, remaining, name, r, p);
    }
  }

  /** Rules.Match: the patterns come in any order, so the result is fixed as a multiset.  It panics,
      here without a result, exactly when the matcher does on some pattern. */
  method Match(rules: SliceRules, name: string) returns (r: Option<seq<Resource>>)
    requires Separate(rules)
    ensures r.None? <==> Panics(View(rules), name)
    ensures r.Some? ==> forall x :: multiset(r.value)[x] == Found(View(rules), name, x)
  {
    ghost var view := View(rules);
    assert view.Keys == rules.Keys;
    var matched: seq<Resource> := [];
    var remaining := rules.Keys;
    while remaining != {}
      invariant remaining <= rules.Keys
      invariant MatchedSoFar(view, remaining, name, matched)
      invariant forall p :: p in rules && p !in remaining ==> MatchSimple(p, name) != Panic
      decreases |remaining|
    {
      var p :| p in remaining;
      var verdict := MatchSimple(p, name);
      if verdict == Panic {
        assert p in view;
        return None;
      }
      MatchedMore(view, remaining, name, matched, p);
      if verdict == Yes {
        matched := TakeAll(matched, rules[p]);
      }
      remaining := remaining - {p};
    }
    assert View(rules) == view;
    forall x ensures multiset(matched)[x] == Found(View(rules), name, x) {
      assert Hits(view, {}, name, x) == 0;
      assert multiset(matched)[x] + Hits(view, remaining, name, x) == Found(view, name, x);
    }
    r := Some(matched);
  }

  /** What both programs ask before they send an event: the rules of the event, matched against the
      object name.  For an event that is set the answer has each resource once per listed event that
      covers it, over the queues and topics whose filter says yes, unless some filter makes the matcher
      panic. */
  method Lookup(config: Config, e: EventName, name: string) returns (r: Option<seq<Resource>>)
    requires e != NO_EVENT
    ensures var all := config.queues + config.topics;
            r.None? <==> exists k, i :: 0 <= k < |all| && 0 <= i < |all[k].events| && e in Expand(all[k].events[i])
                                        && FilterSays(all[k].rules, name, Panic)
    ensures r.Some? ==>
              var all := config.queues + config.topics;
              forall x ::
                multiset(r.value)[x]
                == |set k, i | 0 <= k < |all| && 0 <= i < |all[k].events| && all[k].resource == x
                               && e in Expand(all[k].events[i]) && FilterSays(all[k].rules, name, Yes) :: (k, i)|
  {
    var rulesMap := ConfigRules(config);
    var rules := RulesOf(rulesMap.index, e);
    HoldsIsView(rulesMap.index, rulesMap.Value());
    StoresWithin(rulesMap.index, e);
    assert View(rules) == RulesFor(ConfigIndex(config), e);
    r := Match(rules, name);
    LookupMeaning(config, e, name);
    LookupCounted(config, e, name);
  }

  lemma LookupMeaning(config: Config, e: EventName, name: string)
    requires e != NO_EVENT
    ensures Panics(RulesFor(ConfigIndex(config), e), name) <==> Spoiled(config.queues + config.topics, e, name)
    ensures forall x :: Found(RulesFor(ConfigIndex(config), e), name, x)
                        == |Grounds(config.queues + config.topics, e, name, x)|
  {
    IndexPanics(config, e, name);
    forall x ensures Found(RulesFor(ConfigIndex(config), e), name, x)
                     == |Grounds(config.queues + config.topics, e, name, x)|
    {
      IndexIsScan(config, e, name, x);
      ScanCounted(config.queues + config.topics, e, name, x);
    }
  }

  lemma LookupCounted(config: Config, e: EventName, name: string)
    ensures var all := config.queues + config.topics;
            Spoiled(all, e, name)
            <==> exists k, i :: 0 <= k < |all| && 0 <= i < |all[k].events| && e in Expand(all[k].events[i])
                                && FilterSays(all[k].rules, name, Panic)
  {
    var all := config.queues + config.topics;
    forall k | 0 <= k < |all|
      ensures Occurrences(e, all[k].events) > 0
              <==> exists i :: 0 <= i < |all[k].events| && e in Expand(all[k].events[i])
    {
      OccurrencesCounted(e, all[k].events);
      if i :| 0 <= i < |all[k].events| && e in Expand(all[k].events[i]) { assert i in EventsFor(e, all[k].events); }
    }
  }
}
