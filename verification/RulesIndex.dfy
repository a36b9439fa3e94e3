/**
  The notification rules index as a value: event name to pattern to resources.

  The functions say what the map-building code computes; the lemmas show that looking an object up
  in the index is the same as scanning the whole configuration.
 */
module RulesIndex {
  import opened Wildcard
  import opened FilterPattern
  import opened Resources

  type EventName = int

  /** The zero value, an unset name. */
  const NO_EVENT: EventName := 0

  const OBJECT_ACCESSED_ALL: EventName := 1
  const OBJECT_ACCESSED_GET: EventName := 2
  const OBJECT_ACCESSED_HEAD: EventName := 3
  const OBJECT_CREATED_ALL: EventName := 4
  const OBJECT_CREATED_COMPLETE_MULTIPART_UPLOAD: EventName := 5
  const OBJECT_CREATED_COPY: EventName := 6
  const OBJECT_CREATED_POST: EventName := 7
  const OBJECT_CREATED_PUT: EventName := 8
  const OBJECT_REMOVED_ALL: EventName := 9
  const OBJECT_REMOVED_DELETE: EventName := 10

  function Expand(name: EventName): seq<EventName> {
    if name == OBJECT_ACCESSED_ALL then [OBJECT_ACCESSED_GET, OBJECT_ACCESSED_HEAD]
    else if name == OBJECT_CREATED_ALL then
      [OBJECT_CREATED_COMPLETE_MULTIPART_UPLOAD, OBJECT_CREATED_COPY, OBJECT_CREATED_POST, OBJECT_CREATED_PUT]
    else if name == OBJECT_REMOVED_ALL then [OBJECT_REMOVED_DELETE]
    else [name]
  }

  /** The names of the events; a name that ends in a star stands for all events of its kind. */
  function Text(name: EventName): string {
    if name == OBJECT_ACCESSED_ALL then "s3:ObjectAccessed:*"
    else if name == OBJECT_ACCESSED_GET then "s3:ObjectAccessed:Get"
    else if name == OBJECT_ACCESSED_HEAD then "s3:ObjectAccessed:Head"
    else if name == OBJECT_CREATED_ALL then "s3:ObjectCreated:*"
    else if name == OBJECT_CREATED_COMPLETE_MULTIPART_UPLOAD then "s3:ObjectCreated:CompleteMultipartUpload"
    else if name == OBJECT_CREATED_COPY then "s3:ObjectCreated:Copy"
    else if name == OBJECT_CREATED_POST then "s3:ObjectCreated:Post"
    else if name == OBJECT_CREATED_PUT then "s3:ObjectCreated:Put"
    else if name == OBJECT_REMOVED_ALL then "s3:ObjectRemoved:*"
    else if name == OBJECT_REMOVED_DELETE then "s3:ObjectRemoved:Delete"
    else ""
  }

  predicate SingleEvent(e: EventName) {
    1 <= e <= 10 && e != OBJECT_ACCESSED_ALL && e != OBJECT_CREATED_ALL && e != OBJECT_REMOVED_ALL
  }

  /** The single events that each name covers. */
  lemma ExpandCovers(e: EventName)
    requires SingleEvent(e)
    ensures e in Expand(OBJECT_ACCESSED_ALL) <==> "s3:ObjectAccessed:" <= Text(e)
    ensures e in Expand(OBJECT_CREATED_ALL) <==> "s3:ObjectCreated:" <= Text(e)
    ensures e in Expand(OBJECT_REMOVED_ALL) <==> "s3:ObjectRemoved:" <= Text(e)
    ensures forall n :: SingleEvent(n) ==> (e in Expand(n) <==> n == e)
  {
    AccessedTexts(e);
    CreatedTexts(e);
    RemovedTexts(e);
  }

  lemma AccessedTexts(e: EventName)
    requires SingleEvent(e)
    ensures "s3:ObjectAccessed:" <= Text(e) <==> e == OBJECT_ACCESSED_GET || e == OBJECT_ACCESSED_HEAD
  {
    assert "s3:ObjectAccessed:"[9] == 'A';
    assert e == OBJECT_ACCESSED_GET || e == OBJECT_ACCESSED_HEAD ==> Text(e)[..18] == "s3:ObjectAccessed:";
  }

  lemma CreatedTexts(e: EventName)
    requires SingleEvent(e)
    ensures "s3:ObjectCreated:" <= Text(e)
            <==> e == OBJECT_CREATED_COMPLETE_MULTIPART_UPLOAD || e == OBJECT_CREATED_COPY || e == OBJECT_CREATED_POST
                 || e == OBJECT_CREATED_PUT
  {
    var kind := "s3:ObjectCreated:";
    assert kind[9] == 'C';
    assert kind + "CompleteMultipartUpload" == "s3:ObjectCreated:CompleteMultipartUpload";
    assert kind + "Copy" == "s3:ObjectCreated:Copy";
    assert kind + "Post" == "s3:ObjectCreated:Post";
    assert kind + "Put" == "s3:ObjectCreated:Put";
  }

  lemma RemovedTexts(e: EventName)
    requires SingleEvent(e)
    ensures "s3:ObjectRemoved:" <= Text(e) <==> e == OBJECT_REMOVED_DELETE
  {
    assert "s3:ObjectRemoved:"[9] == 'R';
    assert "s3:ObjectRemoved:" + "Delete" == "s3:ObjectRemoved:Delete";
  }

  type Rules = map<string, seq<Resource>>

  type Index = map<EventName, Rules>

  /** What a queue or topic configuration subscribes: its filter, its events, its resource. */
  datatype Subscription = Subscription(rules: seq<FilterRule>, events: seq<EventName>, resource: Resource)

  datatype Config = Config(queues: seq<Subscription>, topics: seq<Subscription>)

  function Get(rules: Rules, pattern: string): seq<Resource> {
    if pattern in rules then rules[pattern] else []
  }

  function RulesFor(index: Index, e: EventName): Rules {
    if e in index then index[e] else map[]
  }

  // ---------------------------------------------------------------- building the index

  /** An empty list of resources in the second map creates no entry. */
  function Union(a: Rules, b: Rules): Rules {
    map p | p in a.Keys + b.Keys && (p in a || b[p] != []) :: Get(a, p) + Get(b, p)
  }

  function AddName(index: Index, name: EventName, pattern: string, resource: Resource): Index {
    index[name := Union(RulesFor(index, name), map[pattern := [resource]])]
  }

  function AddNames(index: Index, names: seq<EventName>, pattern: string, resource: Resource): Index
  {
    if names == [] then index
    else AddName(AddNames(index, names[..|names| - 1], pattern, resource), names[|names| - 1], pattern, resource)
  }

  function ExpandAll(names: seq<EventName>): seq<EventName> {
    if names == [] then [] else ExpandAll(names[..|names| - 1]) + Expand(names[|names| - 1])
  }

  /** The index of `added` takes precedence in order: its resources come before those of `index`. */
  function AddIndex(index: Index, added: Index): Index {
    map e | e in index.Keys + added.Keys ::
      if e in added then Union(added[e], RulesFor(index, e)) else index[e]
  }

  /** The names a subscription is indexed under: the slice is made with a length, not a capacity,
      so as many zero names as there are events come first. */
  function PaddedNames(events: seq<EventName>): seq<EventName> {
    seq(|events|, _ => NO_EVENT) + events
  }

  function SubscriptionPattern(s: Subscription): string {
    EffectivePattern(PatternOf(LastValue(s.rules, "prefix"), LastValue(s.rules, "suffix")))
  }

  function SubscriptionIndex(s: Subscription): Index {
    AddNames(map[], ExpandAll(PaddedNames(s.events)), SubscriptionPattern(s), s.resource)
  }

  function Parts(subscriptions: seq<Subscription>): seq<Index> {
    seq(|subscriptions|, k requires 0 <= k < |subscriptions| => SubscriptionIndex(subscriptions[k]))
  }

  function Fold<T>(f: (T, T) -> T, zero: T, parts: seq<T>): T {
    if parts == [] then zero else f(Fold(f, zero, parts[..|parts| - 1]), parts[|parts| - 1])
  }

  /** The values a fold goes through. */
  ghost predicate Trace<T>(f: (T, T) -> T, zero: T, parts: seq<T>, values: seq<T>) {
    && |values| == |parts| + 1 && values[0] == zero
    && forall k :: 0 <= k < |parts| ==> Follows(f, values, k, parts[k])
  }

  ghost predicate Follows<T>(f: (T, T) -> T, values: seq<T>, k: nat, part: T)
    requires k + 1 < |values|
  {
    values[k + 1] == f(values[k], part)
  }

  lemma {:induction false} TraceEnds<T>(f: (T, T) -> T, zero: T, parts: seq<T>, values: seq<T>)
    requires Trace(f, zero, parts, values)
    ensures values[|parts|] == Fold(f, zero, parts)
  {
    if parts != [] {
      var last: nat := |parts| - 1;
      forall k | 0 <= k < last ensures Follows(f, values[..last + 1], k, parts[..last][k]) {
        assert Follows(f, values, k, parts[k]);
      }
      TraceEnds(f, zero, parts[..last], values[..last + 1]);
      assert Follows(f, values, last, parts[last]);
    }
  }

  /** The given indexes added one after the other to an empty one. */
  function Sum(parts: seq<Index>): Index {
    Fold(AddIndex, map[], parts)
  }

  function ConfigIndex(config: Config): Index {
    Sum(Parts(config.queues) + Parts(config.topics))
  }

  // ---------------------------------------------------------------- looking up

  /** How often `r` is listed under those of the given patterns that match the name. */
  ghost function Hits(rules: Rules, patterns: set<string>, name: string, r: Resource): nat
    decreases |patterns|
  {
    if patterns == {} then 0
    else
      var p :| p in patterns;
      PatternHits(rules, p, name, r) + Hits(rules, patterns - {p}, name, r)
  }

  function PatternHits(rules: Rules, p: string, name: string, r: Resource): nat {
    if MatchSimple(p, name) == Yes then multiset(Get(rules, p))[r] else 0
  }

  lemma {:induction false} HitsWithout(rules: Rules, patterns: set<string>, name: string, r: Resource, p: string)
    requires p in patterns
    ensures Hits(rules, patterns, name, r) == PatternHits(rules, p, name, r) + Hits(rules, patterns - {p}, name, r)
    decreases |patterns|
  {
    var q :| q in patterns
      && Hits(rules, patterns, name, r) == PatternHits(rules, q, name, r) + Hits(rules, patterns - {q}, name, r);
    if q != p {
      HitsWithout(rules, patterns - {q}, name, r, p);
      HitsWithout(rules, patterns - {p}, name, r, q);
      assert patterns - {q} - {p} == patterns - {p} - {q};
    }
  }

  lemma {:induction false} HitsBeyondKeys(rules: Rules, patterns: set<string>, name: string, r: Resource)
    requires rules.Keys <= patterns
    ensures Hits(rules, patterns, name, r) == Hits(rules, rules.Keys, name, r)
    decreases |patterns - rules.Keys|
  {
    if p :| p in patterns - rules.Keys {
      HitsWithout(rules, patterns, name, r, p);
      assert (patterns - {p}) - rules.Keys == (patterns - rules.Keys) - {p};
      HitsBeyondKeys(rules, patterns - {p}, name, r);
    } else {
      assert patterns == rules.Keys;
    }
  }

  lemma {:induction false} HitsAdd(a: Rules, b: Rules, c: Rules, patterns: set<string>, name: string, r: Resource)
    requires forall p :: p in patterns ==> Get(c, p) == Get(a, p) + Get(b, p)
    ensures Hits(c, patterns, name, r) == Hits(a, patterns, name, r) + Hits(b, patterns, name, r)
    decreases |patterns|
  {
    if p :| p in patterns {
      HitsWithout(a, patterns, name, r, p);
      HitsWithout(b, patterns, name, r, p);
      HitsWithout(c, patterns, name, r, p);
      HitsAdd(a, b, c, patterns - {p}, name, r);
    }
  }

  ghost function Found(rules: Rules, name: string, r: Resource): nat {
    Hits(rules, rules.Keys, name, r)
  }

  lemma UnionFound(a: Rules, b: Rules, name: string, r: Resource)
    ensures Found(Union(a, b), name, r) == Found(a, name, r) + Found(b, name, r)
  {
    var keys := a.Keys + b.Keys;
    HitsBeyondKeys(a, keys, name, r);
    HitsBeyondKeys(b, keys, name, r);
    HitsBeyondKeys(Union(a, b), keys, name, r);
    HitsAdd(a, b, Union(a, b), keys, name, r);
  }

  lemma SingleFound(pattern: string, resource: Resource, name: string, r: Resource)
    ensures Found(map[pattern := [resource]], name, r)
      == if MatchSimple(pattern, name) == Yes && r == resource then 1 else 0
  {
    var rules: Rules := map[pattern := [resource]];
    assert rules.Keys == {pattern};
    HitsWithout(rules, {pattern}, name, r, pattern);
    assert {pattern} - {pattern} == {};
  }

  // ---------------------------------------------------------------- the naive scan

  /** How many of the listed names cover event e. */
  function Occurrences(e: EventName, names: seq<EventName>): nat {
    if names == [] then 0
    else Occurrences(e, names[..|names| - 1]) + if e in Expand(names[|names| - 1]) then 1 else 0
  }

  /** Scans the subscriptions: one copy of the resource per listed event that covers e, if the
      object name starts with the prefix and, without overlap, ends with the suffix. */
  ghost function Scan(subscriptions: seq<Subscription>, e: EventName, name: string, r: Resource): nat {
    if subscriptions == [] then 0
    else
      var s := subscriptions[|subscriptions| - 1];
      Scan(subscriptions[..|subscriptions| - 1], e, name, r)
        + if s.resource == r && FilterSays(s.rules, name, Yes)
          then Occurrences(e, s.events) else 0
  }

  lemma {:induction false} AddNamesFound(index: Index, names: seq<EventName>, pattern: string, resource: Resource,
                                         e: EventName, name: string, r: Resource)
    ensures Found(RulesFor(AddNames(index, names, pattern, resource), e), name, r)
      == Found(RulesFor(index, e), name, r)
         + if MatchSimple(pattern, name) == Yes && r == resource then multiset(names)[e] else 0
  {
    if names != [] {
      var last := names[|names| - 1];
      var rest := names[..|names| - 1];
      AddNamesFound(index, rest, pattern, resource, e, name, r);
      assert names == rest + [last];
      var before := AddNames(index, rest, pattern, resource);
      if last == e {
        UnionFound(RulesFor(before, e), map[pattern := [resource]], name, r);
        SingleFound(pattern, resource, name, r);
      }
    }
  }

  /** No expansion lists an event twice. */
  lemma ExpandsOnce(name: EventName, e: EventName)
    ensures multiset(Expand(name))[e] == if e in Expand(name) then 1 else 0
  {
  }

  lemma {:induction false} ExpandedOccurrences(names: seq<EventName>, e: EventName)
    ensures multiset(ExpandAll(names))[e] == Occurrences(e, names)
  {
    if names != [] {
      var rest, last := names[..|names| - 1], names[|names| - 1];
      ExpandedOccurrences(rest, e);
      ExpandsOnce(last, e);
      var expanded := Expand(last);
      assert ExpandAll(names) == ExpandAll(rest) + expanded;
    }
  }

  /** The zero names in front cover no event but the unset one. */
  lemma {:induction false} PaddingIsHarmless(k: nat, events: seq<EventName>, e: EventName)
    ensures Occurrences(e, seq(k, _ => NO_EVENT) + events) == Occurrences(e, events) + if e == NO_EVENT then k else 0
    decreases |events|, k
  {
    var padded := seq(k, _ => NO_EVENT) + events;
    if events != [] {
      assert padded[..|padded| - 1] == seq(k, _ => NO_EVENT) + events[..|events| - 1];
      PaddingIsHarmless(k, events[..|events| - 1], e);
    } else if k > 0 {
      assert padded[..|padded| - 1] == seq(k - 1, _ => NO_EVENT) + events;
      PaddingIsHarmless(k - 1, events, e);
    }
  }

  lemma SubscriptionFound(s: Subscription, e: EventName, name: string, r: Resource)
    ensures Found(RulesFor(SubscriptionIndex(s), e), name, r)
      == if s.resource == r && FilterSays(s.rules, name, Yes)
         then Occurrences(e, s.events) + (if e == NO_EVENT then |s.events| else 0) else 0
  {
    AddNamesFound(map[], ExpandAll(PaddedNames(s.events)), SubscriptionPattern(s), s.resource, e, name, r);
    ExpandedOccurrences(PaddedNames(s.events), e);
    PaddingIsHarmless(|s.events|, s.events, e);
    PatternSays(s, name);
  }

  lemma PatternSays(s: Subscription, name: string)
    ensures forall v :: MatchSimple(SubscriptionPattern(s), name) == v <==> FilterSays(s.rules, name, v)
  {
    PatternMeaning(LastValue(s.rules, "prefix"), LastValue(s.rules, "suffix"), name);
    forall v ensures MatchSimple(SubscriptionPattern(s), name) == v <==> FilterSays(s.rules, name, v) {
      FilterSaysOne(s.rules, name, v);
    }
  }

  lemma AddIndexFound(index: Index, added: Index, e: EventName, name: string, r: Resource)
    ensures Found(RulesFor(AddIndex(index, added), e), name, r)
      == Found(RulesFor(index, e), name, r) + Found(RulesFor(added, e), name, r)
  {
    if e in added {
      UnionFound(added[e], RulesFor(index, e), name, r);
    }
  }

  /** How often r is found in the given indexes together. */
  ghost function FoundIn(parts: seq<Index>, e: EventName, name: string, r: Resource): nat {
    if parts == [] then 0
    else FoundIn(parts[..|parts| - 1], e, name, r) + Found(RulesFor(parts[|parts| - 1], e), name, r)
  }

  lemma {:induction false} SumFound(parts: seq<Index>, e: EventName, name: string, r: Resource)
    ensures Found(RulesFor(Sum(parts), e), name, r) == FoundIn(parts, e, name, r)
  {
    if parts != [] {
      var rest := parts[..|parts| - 1];
      SumFound(rest, e, name, r);
      AddIndexFound(Sum(rest), parts[|parts| - 1], e, name, r);
    }
  }

  lemma {:induction false} PartsFound(subscriptions: seq<Subscription>, e: EventName, name: string, r: Resource)
    requires e != NO_EVENT
    ensures FoundIn(Parts(subscriptions), e, name, r) == Scan(subscriptions, e, name, r)
  {
    if subscriptions != [] {
      var last: nat := |subscriptions| - 1;
      PartsFound(subscriptions[..last], e, name, r);
      SubscriptionFound(subscriptions[last], e, name, r);
      assert Parts(subscriptions)[..last] == Parts(subscriptions[..last]);
    }
  }

  lemma PartsConcat(a: seq<Subscription>, b: seq<Subscription>)
    ensures Parts(a) + Parts(b) == Parts(a + b)
  {
    var all, parts := a + b, Parts(a) + Parts(b);
    forall k | 0 <= k < |all| ensures parts[k] == Parts(all)[k] {
      if k < |a| { assert all[k] == a[k]; } else { assert all[k] == b[k - |a|]; }
    }
  }

  lemma PartAt(subscriptions: seq<Subscription>, i: nat)
    requires i < |subscriptions|
    ensures |Parts(subscriptions)| == |subscriptions|
    ensures Parts(subscriptions)[..i + 1] == Parts(subscriptions)[..i] + [SubscriptionIndex(subscriptions[i])]
  {
    assert Parts(subscriptions)[i] == SubscriptionIndex(subscriptions[i]);
  }

  /** For every configuration, every event that is set and every object name, the index finds each
      resource exactly as often as the scan of all queues and topics does. */
  lemma IndexIsScan(config: Config, e: EventName, name: string, r: Resource)
    requires e != NO_EVENT
    ensures Found(RulesFor(ConfigIndex(config), e), name, r) == Scan(config.queues + config.topics, e, name, r)
  {
    PartsConcat(config.queues, config.topics);
    SumFound(Parts(config.queues + config.topics), e, name, r);
    PartsFound(config.queues + config.topics, e, name, r);
  }

  // ---------------------------------------------------------------- the scan, counted

  function EventsFor(e: EventName, names: seq<EventName>): set<int> {
    set i | 0 <= i < |names| && e in Expand(names[i])
  }

  lemma EventsMore(e: EventName, rest: seq<EventName>, name: EventName)
    ensures |EventsFor(e, rest + [name])| == |EventsFor(e, rest)| + if e in Expand(name) then 1 else 0
  {
    var all, more := rest + [name], if e in Expand(name) then {|rest|} else {};
    assert forall i :: 0 <= i < |rest| ==> all[i] == rest[i];
    assert EventsFor(e, all) == EventsFor(e, rest) + more;
    assert |rest| !in EventsFor(e, rest);
  }

  lemma {:induction false} OccurrencesCounted(e: EventName, names: seq<EventName>)
    ensures Occurrences(e, names) == |EventsFor(e, names)|
  {
    if names != [] {
      var last: nat := |names| - 1;
      OccurrencesCounted(e, names[..last]);
      EventsMore(e, names[..last], names[last]);
      assert names == names[..last] + [names[last]];
    }
  }

  /** The listed events that get the resource the event: k numbers the queues and topics, i the events of one. */
  ghost function Grounds(subscriptions: seq<Subscription>, e: EventName, name: string, r: Resource): set<(int, int)> {
    set k, i | 0 <= k < |subscriptions| && 0 <= i < |subscriptions[k].events|
               && subscriptions[k].resource == r && e in Expand(subscriptions[k].events[i])
               && FilterSays(subscriptions[k].rules, name, Yes) :: (k, i)
  }

  lemma {:induction false} PairSize(k: int, members: set<int>)
    ensures |set i | i in members :: (k, i)| == |members|
    decreases |members|
  {
    var pairs := set i | i in members :: (k, i);
    assert (forall i :: i !in members) ==> members == {};
    if members == {} {
      assert pairs == {};
    } else {
      var i :| i in members;
      var rest := members - {i};
      PairSize(k, rest);
      assert pairs == (set j | j in rest :: (k, j)) + {(k, i)};
    }
  }

  lemma GroundsMore(rest: seq<Subscription>, s: Subscription, e: EventName, name: string, r: Resource)
    ensures |Grounds(rest + [s], e, name, r)|
            == |Grounds(rest, e, name, r)|
               + if s.resource == r && FilterSays(s.rules, name, Yes) then |EventsFor(e, s.events)| else 0
  {
    var all := rest + [s];
    var more := if s.resource == r && FilterSays(s.rules, name, Yes)
                then set i | i in EventsFor(e, s.events) :: (|rest|, i) else {};
    assert forall k :: 0 <= k < |rest| ==> all[k] == rest[k];
    assert Grounds(all, e, name, r) == Grounds(rest, e, name, r) + more;
    PairSize(|rest|, EventsFor(e, s.events));
  }

  lemma {:induction false} ScanCounted(subscriptions: seq<Subscription>, e: EventName, name: string, r: Resource)
    ensures Scan(subscriptions, e, name, r) == |Grounds(subscriptions, e, name, r)|
  {
    if subscriptions != [] {
      var last: nat := |subscriptions| - 1;
      var rest, s := subscriptions[..last], subscriptions[last];
      assert rest + [s] == subscriptions;
      ScanCounted(rest, e, name, r);
      GroundsMore(rest, s, e, name, r);
      OccurrencesCounted(e, s.events);
    }
  }

  // ---------------------------------------------------------------- when a lookup panics

  /** Matching goes over all patterns of the rules, so one that panics is enough. */
  ghost predicate Panics(rules: Rules, name: string) {
    exists p :: p in rules && MatchSimple(p, name) == Panic
  }

  /** Every pattern has a resource. */
  predicate Occupied(rules: Rules) {
    forall p :: p in rules ==> rules[p] != []
  }

  predicate AllOccupied(index: Index) {
    forall e :: e in index ==> Occupied(index[e])
  }

  lemma UnionOccupied(a: Rules, b: Rules)
    requires Occupied(a) && Occupied(b)
    ensures Occupied(Union(a, b)) && Union(a, b).Keys == a.Keys + b.Keys
  {
  }

  lemma {:induction false} AddNamesKeys(names: seq<EventName>, pattern: string, resource: Resource, e: EventName)
    ensures AllOccupied(AddNames(map[], names, pattern, resource))
    ensures RulesFor(AddNames(map[], names, pattern, resource), e).Keys == if e in names then {pattern} else {}
  {
    if names != [] {
      var rest, last := names[..|names| - 1], names[|names| - 1];
      assert names == rest + [last];
      AddNamesKeys(rest, pattern, resource, e);
      AddNamesKeys(rest, pattern, resource, last);
      var before := AddNames(map[], rest, pattern, resource);
      UnionOccupied(RulesFor(before, last), map[pattern := [resource]]);
    }
  }

  /** The patterns that subscriptions list for an event. */
  function Patterns(subscriptions: seq<Subscription>, e: EventName): set<string> {
    set k | 0 <= k < |subscriptions| && Occurrences(e, subscriptions[k].events) > 0
      :: SubscriptionPattern(subscriptions[k])
  }

  lemma SubscriptionKeys(s: Subscription, e: EventName)
    requires e != NO_EVENT
    ensures AllOccupied(SubscriptionIndex(s))
    ensures RulesFor(SubscriptionIndex(s), e).Keys == Patterns([s], e)
  {
    var names := ExpandAll(PaddedNames(s.events));
    AddNamesKeys(names, SubscriptionPattern(s), s.resource, e);
    ExpandedOccurrences(PaddedNames(s.events), e);
    PaddingIsHarmless(|s.events|, s.events, e);
    assert e in names <==> multiset(names)[e] > 0;
    assert Patterns([s], e) == if Occurrences(e, s.events) > 0 then {SubscriptionPattern(s)} else {} by {
      assert [s][0] == s;
    }
  }

  lemma AddIndexKeys(index: Index, added: Index, e: EventName)
    requires AllOccupied(index) && AllOccupied(added)
    ensures AllOccupied(AddIndex(index, added))
    ensures RulesFor(AddIndex(index, added), e).Keys == RulesFor(index, e).Keys + RulesFor(added, e).Keys
  {
    forall f | f in added ensures Occupied(Union(added[f], RulesFor(index, f))) {
      UnionOccupied(added[f], RulesFor(index, f));
    }
    if e in added { UnionOccupied(added[e], RulesFor(index, e)); }
  }

  lemma SumMore(rest: seq<Subscription>, s: Subscription)
    ensures Sum(Parts(rest + [s])) == AddIndex(Sum(Parts(rest)), SubscriptionIndex(s))
  {
    var all := rest + [s];
    PartAt(all, |rest|);
    assert Parts(rest) == Parts(all)[..|rest|] by {
      assert forall k :: 0 <= k < |rest| ==> all[k] == rest[k];
    }
    assert Parts(all)[..|rest| + 1] == Parts(all);
  }

  lemma {:induction false} SumKeys(subscriptions: seq<Subscription>, e: EventName)
    requires e != NO_EVENT
    ensures AllOccupied(Sum(Parts(subscriptions)))
    ensures RulesFor(Sum(Parts(subscriptions)), e).Keys == Patterns(subscriptions, e)
  {
    if subscriptions != [] {
      var last: nat := |subscriptions| - 1;
      var rest, s := subscriptions[..last], subscriptions[last];
      assert subscriptions == rest + [s];
      var before := Sum(Parts(rest));
      SumKeys(rest, e);
      SumMore(rest, s);
      SubscriptionKeys(s, e);
      AddIndexKeys(before, SubscriptionIndex(s), e);
      PatternsMore(rest, s, e);
    }
  }

  lemma PatternsMore(rest: seq<Subscription>, s: Subscription, e: EventName)
    ensures Patterns(rest + [s], e) == Patterns(rest, e) + Patterns([s], e)
  {
    var all := rest + [s];
    assert forall k :: 0 <= k < |rest| ==> all[k] == rest[k];
    assert all[|rest|] == s && [s][0] == s;
  }

  /** A subscription makes a lookup panic: it lists the event, and its filter is cut short on the name. */
  ghost predicate Spoils(s: Subscription, e: EventName, name: string) {
    Occurrences(e, s.events) > 0 && FilterSays(s.rules, name, Panic)
  }

  ghost predicate Spoiled(subscriptions: seq<Subscription>, e: EventName, name: string) {
    exists k :: 0 <= k < |subscriptions| && Spoils(subscriptions[k], e, name)
  }

  /** The lookup of a set event panics exactly when the filter of some queue or topic that lists the
      event does, whatever the other filters are. */
  lemma IndexPanics(config: Config, e: EventName, name: string)
    requires e != NO_EVENT
    ensures Panics(RulesFor(ConfigIndex(config), e), name) <==> Spoiled(config.queues + config.topics, e, name)
  {
    var all := config.queues + config.topics;
    PartsConcat(config.queues, config.topics);
    SumKeys(all, e);
    forall k | 0 <= k < |all|
      ensures MatchSimple(SubscriptionPattern(all[k]), name) == Panic <==> FilterSays(all[k].rules, name, Panic)
    {
      PatternSays(all[k], name);
    }
  }
}
