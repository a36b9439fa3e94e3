/**
  Building the rules map of a configuration on the heap.

  Throughout, the arrays behind the slices of different event and pattern entries are different
  ones, so a write into spare room never reaches another entry.
 */
module RulesMapBuilder {
  import opened Resources
  import opened RulesIndex
  import opened RulesMaps

  type SliceIndex = map<EventName, SliceRules>

  ghost function AllStores(index: SliceIndex): set<array<Resource>> {
    set e, p | e in index && p in index[e] && index[e][p].Slice? :: index[e][p].store
  }

  function RulesOf(index: SliceIndex, e: EventName): SliceRules {
    if e in index then index[e] else map[]
  }

  ghost predicate Apart(rules: SliceRules, index: SliceIndex) {
    forall e :: e in index ==> Disjoint(rules, index[e])
  }

  /** No array belongs to two entries of the index. */
  ghost predicate Owned(index: SliceIndex) {
    && (forall e :: e in index ==> Separate(index[e]))
    && (forall e, f :: e in index && f in index && e != f ==> Disjoint(index[e], index[f]))
  }

  lemma StoresWithin(index: SliceIndex, e: EventName)
    ensures Stores(RulesOf(index, e)) <= AllStores(index)
  {
  }

  ghost function IndexView(index: SliceIndex): Index
    requires Owned(index)
    reads AllStores(index)
  {
    map e | e in index :: (StoresWithin(index, e); View(index[e]))
  }

  /** The slices hold exactly the index v. */
  ghost predicate HoldsIndex(index: SliceIndex, v: Index)
    reads AllStores(index)
  {
    && Owned(index) && v.Keys == index.Keys
    && forall e :: e in index ==> (StoresWithin(index, e); Holds(index[e], v[e]))
  }

  lemma HoldsIsView(index: SliceIndex, v: Index)
    ensures HoldsIndex(index, v) <==> Owned(index) && IndexView(index) == v
  {
    if Owned(index) {
      if HoldsIndex(index, v) {
        forall e | e in index ensures View(index[e]) == v[e] {
          assert Holds(index[e], v[e]);
        }
      }
      if IndexView(index) == v {
        forall e | e in index ensures Holds(index[e], v[e]) {
          assert v[e] == View(index[e]);
        }
      }
    }
  }

  lemma DisjointStores(a: SliceRules, b: SliceRules)
    requires Disjoint(a, b)
    ensures Stores(a) !! Stores(b)
  {
  }

  lemma DisjointByStores(a: SliceRules, b: SliceRules)
    requires Stores(a) !! Stores(b)
    ensures Disjoint(a, b)
  {
    forall p, q | p in a && q in b && a[p].Slice? && b[q].Slice? ensures a[p].store != b[q].store {
      assert a[p].store in Stores(a) && b[q].store in Stores(b);
    }
  }

  /** Replacing one entry by rules whose arrays belong to no other entry. */
  lemma Replaced(index: SliceIndex, name: EventName, n: SliceRules, v: Index)
    requires v.Keys == index.Keys
    requires forall e :: e in index && e != name ==> Holds(index[e], v[e]) && Disjoint(index[e], n)
    requires forall e, f :: e in index && f in index && e != f ==> Disjoint(index[e], index[f])
    requires Separate(n)
    ensures HoldsIndex(index[name := n], v[name := View(n)])
  {
  }

  /** One assignment of `add`: the entry of an event is replaced by its union with the new rules. */
  method Subscribe(index: SliceIndex, name: EventName, rules: SliceRules, ghost v: Index, ghost r: Rules,
                   ghost own: set<array<Resource>>)
    returns (index': SliceIndex, ghost own': set<array<Resource>>)
    requires Building(index, rules, v, r, own)
    modifies own
    ensures Building(index', rules, v[name := RulesIndex.Union(RulesFor(v, name), r)], r, own')
    ensures own <= own' && fresh(own' - own)
  {
    StoresWithin(index, name);
    var current := RulesOf(index, name);
    assert name in index ==> Holds(index[name], v[name]);
    assert View(current) == RulesFor(v, name) && View(rules) == r;
    forall e | e in index && e != name ensures Stores(index[e]) !! Stores(current) && Holds(index[e], v[e]) {
      if name in index { DisjointStores(index[e], current); }
    }
    DisjointByStores(current, rules);
    var n;
    ghost var news;
    n, news := RulesMaps.Union(current, rules);
    index' := index[name := n];
    own' := own + news;
    forall e | e in index && e != name ensures Holds(index[e], v[e]) {
    }
    Subscribed(index, name, n, rules, v, r, own, news);
  }

  lemma Subscribed(index: SliceIndex, name: EventName, n: SliceRules, rules: SliceRules, v: Index, r: Rules,
                   own: set<array<Resource>>, news: set<array<Resource>>)
    requires Owned(index) && v.Keys == index.Keys && Separate(n)
    requires forall e :: e in index && e != name ==> Holds(index[e], v[e])
    requires forall p :: p in n && n[p].Slice? ==>
      (p in RulesOf(index, name) && SameOrGrown(RulesOf(index, name)[p], n[p])) || n[p].store in news
    requires Holds(rules, r) && AllStores(index) <= own && Stores(rules) !! own && news !! own && news !! Stores(rules)
    ensures Building(index[name := n], rules, v[name := View(n)], r, own + news)
  {
    forall e | e in index && e != name ensures Disjoint(index[e], n) {
      StoresWithin(index, e);
      forall p, q | p in index[e] && q in n && index[e][p].Slice? && n[q].Slice?
        ensures index[e][p].store != n[q].store
      {
        assert index[e][p].store in Stores(index[e]);
      }
    }
    Replaced(index, name, n, v);
    StoresWithin(index, name);
    StoresReplaced(index, name, n, own);
    assert Stores(n) <= own + news;
  }

  lemma StoresReplaced(index: SliceIndex, name: EventName, n: SliceRules, own: set<array<Resource>>)
    requires AllStores(index) <= own
    ensures AllStores(index[name := n]) <= own + Stores(n)
  {
  }

  /** The state of `add`'s loops: the index holds v, its arrays are in `own`, and the rules being
      added live elsewhere. */
  ghost predicate Building(index: SliceIndex, rules: SliceRules, v: Index, r: Rules, own: set<array<Resource>>)
    reads AllStores(index), Stores(rules)
  {
    HoldsIndex(index, v) && Holds(rules, r) && AllStores(index) <= own && Stores(rules) !! own
  }

  lemma AddNamesMore(before: Index, done: seq<EventName>, name: EventName, pattern: string, resource: Resource)
    ensures RulesIndex.AddNames(before, done + [name], pattern, resource)
      == AddName(RulesIndex.AddNames(before, done, pattern, resource), name, pattern, resource)
  {
  }

  /** One event of the inner loop of `add`. */
  method SubscribeNext(index: SliceIndex, name: EventName, rules: SliceRules, ghost done: seq<EventName>,
                       ghost pattern: string, ghost resource: Resource, ghost before: Index,
                       ghost own: set<array<Resource>>)
    returns (index': SliceIndex, ghost own': set<array<Resource>>)
    requires Subscribing(index, rules, before, done, pattern, resource, own)
    modifies own
    ensures Subscribing(index', rules, before, done + [name], pattern, resource, own')
    ensures own <= own' && fresh(own' - own)
  {
    AddNamesMore(before, done, name, pattern, resource);
    index', own' := Subscribe(index, name, rules, RulesIndex.AddNames(before, done, pattern, resource),
                              map[pattern := [resource]], own);
  }

  ghost predicate Subscribing(index: SliceIndex, rules: SliceRules, before: Index, done: seq<EventName>,
                              pattern: string, resource: Resource, own: set<array<Resource>>)
    reads AllStores(index), Stores(rules)
  {
    Building(index, rules, RulesIndex.AddNames(before, done, pattern, resource), map[pattern := [resource]], own)
  }

  /** The inner loop of `add`, over the expansion of one listed name. */
  method SubscribeAll(index: SliceIndex, expanded: seq<EventName>, rules: SliceRules, ghost done: seq<EventName>,
                      ghost pattern: string, ghost resource: Resource, ghost before: Index,
                      ghost own: set<array<Resource>>)
    returns (index': SliceIndex, ghost own': set<array<Resource>>)
    requires Subscribing(index, rules, before, done, pattern, resource, own)
    modifies own
    ensures Subscribing(index', rules, before, done + expanded, pattern, resource, own')
    ensures own <= own' && fresh(own' - own)
  {
    index', own' := index, own;
    ghost var now := done;
    TakeNone(done, expanded);
    for j := 0 to |expanded|
      invariant now == Taken(done, expanded, j)
      invariant Subscribing(index', rules, before, now, pattern, resource, own')
      invariant own <= own' && fresh(own' - own)
    {
      index', own' := SubscribeNext(index', expanded[j], rules, now, pattern, resource, before, own');
      TakeMore(done, expanded, j);
      now := now + [expanded[j]];
    }
    TakeAll(done, expanded);
  }

  function Taken(done: seq<EventName>, names: seq<EventName>, j: nat): seq<EventName>
    requires j <= |names|
  {
    done + names[..j]
  }

  lemma TakeNone(done: seq<EventName>, names: seq<EventName>)
    ensures Taken(done, names, 0) == done
  {
  }

  lemma TakeMore(done: seq<EventName>, names: seq<EventName>, j: nat)
    requires j < |names|
    ensures Taken(done, names, j + 1) == Taken(done, names, j) + [names[j]]
  {
  }

  lemma TakeAll(done: seq<EventName>, names: seq<EventName>)
    ensures Taken(done, names, |names|) == done + names
  {
    assert names[..|names|] == names;
  }

  /** One assignment of `Add`: the entry becomes the union of the added rules with the old entry. */
  method Merge(index: SliceIndex, added: SliceIndex, e: EventName, ghost v: Index, ghost w: Index)
    returns (index': SliceIndex, n: SliceRules, ghost news: set<array<Resource>>)
    requires HoldsIndex(index, v) && HoldsIndex(added, w) && e in added && Apart(added[e], index)
    modifies Stores(RulesOf(added, e))
    ensures HoldsIndex(index', v[e := RulesIndex.Union(w[e], RulesFor(v, e))])
    ensures HoldsIndex(added, w)
    ensures index' == index[e := n]
    ensures fresh(news)
    ensures forall p :: p in n && n[p].Slice? ==>
              (p in added[e] && SameOrGrown(added[e][p], n[p])) || n[p].store in news
  {
    var rules, current := added[e], RulesOf(index, e);
    assert Holds(rules, w[e]);
    assert e in index ==> Holds(index[e], v[e]);
    assert View(current) == RulesFor(v, e) && View(rules) == w[e];
    forall f | f in index ensures Stores(index[f]) !! Stores(rules) && Holds(index[f], v[f]) {
      DisjointStores(rules, index[f]);
    }
    forall f | f in added && f != e ensures Stores(added[f]) !! Stores(rules) && Holds(added[f], w[f]) {
      DisjointStores(added[f], rules);
    }
    n, news := RulesMaps.Union(rules, current);
    index' := index[e := n];
    assert Holds(rules, w[e]);
    forall f | f in added ensures Holds(added[f], w[f]) {
    }
    forall f | f in index && f != e ensures Holds(index[f], v[f]) && Disjoint(index[f], n) {
      assert Disjoint(rules, index[f]);
    }
    Replaced(index, e, n, v);
  }

  /** The value of an index into which all but the events in `remaining` have been merged. */
  ghost function PartlyAdded(v: Index, w: Index, remaining: set<EventName>): Index {
    map e | e in v.Keys + (w.Keys - remaining) ::
      if e in w && e !in remaining then RulesIndex.Union(w[e], RulesFor(v, e)) else v[e]
  }

  lemma AddOneMore(v: Index, w: Index, remaining: set<EventName>, e: EventName)
    requires e in remaining && remaining <= w.Keys
    ensures PartlyAdded(v, w, remaining - {e})
      == PartlyAdded(v, w, remaining)[e := RulesIndex.Union(w[e], RulesFor(PartlyAdded(v, w, remaining), e))]
  {
  }

  /** The state of Add's loop: the events in `remaining` are still to be merged. */
  ghost predicate Adding(index: SliceIndex, added: SliceIndex, remaining: set<EventName>, v: Index, w: Index,
                         own: set<array<Resource>>)
    reads AllStores(index), AllStores(added)
  {
    && remaining <= w.Keys && HoldsIndex(added, w) && HoldsIndex(index, PartlyAdded(v, w, remaining))
    && AllStores(index) <= own && AllStores(added) <= own
    && forall e :: e in remaining ==> Apart(added[e], index)
  }

  method MergeNext(index: SliceIndex, added: SliceIndex, remaining: set<EventName>, e: EventName,
                   ghost v: Index, ghost w: Index, ghost own: set<array<Resource>>)
    returns (index': SliceIndex, ghost own': set<array<Resource>>)
    requires Adding(index, added, remaining, v, w, own) && e in remaining
    modifies Stores(RulesOf(added, e))
    ensures Adding(index', added, remaining - {e}, v, w, own')
    ensures own <= own' && fresh(own' - own)
  {
    StoresWithin(added, e);
    var n;
    ghost var news;
    index', n, news := Merge(index, added, e, PartlyAdded(v, w, remaining), w);
    own' := own + news;
    AddingStep(index, added, remaining, e, n, v, w, own, news);
  }

  lemma {:induction false} AddingStep(index: SliceIndex, added: SliceIndex, remaining: set<EventName>, e: EventName,
                   n: SliceRules,
                   v: Index, w: Index, own: set<array<Resource>>, news: set<array<Resource>>)
    requires remaining <= w.Keys && e in remaining && HoldsIndex(added, w) && news !! own
    requires AllStores(index) <= own && AllStores(added) <= own
    requires forall f :: f in remaining ==> Apart(added[f], index)
    requires forall p :: p in n && n[p].Slice? ==>
      (p in added[e] && SameOrGrown(added[e][p], n[p])) || n[p].store in news
    requires HoldsIndex(index[e := n],
      PartlyAdded(v, w, remaining)[e := RulesIndex.Union(w[e], RulesFor(PartlyAdded(v, w, remaining), e))])
    ensures Adding(index[e := n], added, remaining - {e}, v, w, own + news)
  {
    AddOneMore(v, w, remaining, e);
    StoresReplaced(index, e, n, own);
    StoresWithin(added, e);
    assert Stores(n) <= own + news;
    StillApart(index, added, remaining, e, n, own);
  }

  /** Merging one event leaves the added rules of the other events apart from the index. */
  lemma StillApart(index: SliceIndex, added: SliceIndex, remaining: set<EventName>, e: EventName, n: SliceRules,
                   own: set<array<Resource>>)
    requires Owned(added) && AllStores(added) <= own && remaining <= added.Keys && e in remaining
    requires forall f :: f in remaining ==> Apart(added[f], index)
    requires forall p :: p in n && n[p].Slice? ==>
      (p in added[e] && SameOrGrown(added[e][p], n[p])) || n[p].store !in own
    ensures forall f :: f in remaining - {e} ==> Apart(added[f], index[e := n])
  {
  }

  lemma AddingStart(index: SliceIndex, added: SliceIndex, v: Index, w: Index, own: set<array<Resource>>)
    requires HoldsIndex(index, v) && HoldsIndex(added, w) && AllStores(index) !! AllStores(added)
    requires AllStores(index) <= own && AllStores(added) <= own
    ensures Adding(index, added, added.Keys, v, w, own)
  {
    assert PartlyAdded(v, w, added.Keys) == v;
    forall e | e in added ensures Apart(added[e], index) {
      forall f | f in index ensures Disjoint(added[e], index[f]) {
        StoresWithin(added, e);
        StoresWithin(index, f);
        DisjointByStores(added[e], index[f]);
      }
    }
  }

  lemma AddingEnd(index: SliceIndex, added: SliceIndex, v: Index, w: Index, own: set<array<Resource>>)
    requires Adding(index, added, {}, v, w, own)
    ensures HoldsIndex(index, AddIndex(v, w)) && HoldsIndex(added, w) && AllStores(index) <= own
  {
  }

  /** The next key in the arbitrary order in which a map is ranged over. */
  method AnyOf(events: set<EventName>) returns (e: EventName)
    requires events != {}
    ensures e in events
  {
    assert (forall x :: x !in events) ==> events == {};
    e :| e in events;
  }

  method MergeAll(index: SliceIndex, added: SliceIndex, ghost v: Index, ghost w: Index, ghost own: set<array<Resource>>)
    returns (index': SliceIndex, ghost own': set<array<Resource>>)
    requires HoldsIndex(index, v) && HoldsIndex(added, w) && AllStores(index) !! AllStores(added)
    requires AllStores(index) <= own && AllStores(added) <= own
    modifies AllStores(added)
    ensures HoldsIndex(index', AddIndex(v, w)) && HoldsIndex(added, w)
    ensures AllStores(index') <= own' && own <= own' && fresh(own' - own)
  {
    index', own' := index, own;
    var remaining := added.Keys;
    AddingStart(index, added, v, w, own);
    while remaining != {}
      invariant Adding(index', added, remaining, v, w, own')
      invariant own <= own' && fresh(own' - own)
      decreases |remaining|
    {
      var e := AnyOf(remaining);
      StoresWithin(added, e);
      index', own' := MergeNext(index', added, remaining, e, v, w, own');
      remaining := remaining - {e};
    }
    AddingEnd(index', added, v, w, own');
  }

  /** A rules map as the program passes it around; Repr covers the arrays of its slices. */
  class RulesMap {
    var index: SliceIndex
    ghost var Repr: set<array<Resource>>

    ghost predicate Valid()
      reads this, Repr
    {
      AllStores(index) <= Repr && Owned(index)
    }

    ghost function Value(): Index
      requires Valid()
      reads this, Repr
    {
      IndexView(index)
    }

    constructor ()
      ensures Valid() && Value() == map[] && Repr == {}
    {
      index, Repr := map[], {};
    }

    /** Subscribes a resource to the expansions of the listed event names. */
    method AddNames(names: seq<EventName>, pattern: string, resource: Resource)
      requires Valid()
      modifies this, Repr
      ensures Valid() && fresh(Repr - old(Repr))
      ensures Value() == RulesIndex.AddNames(old(Value()), ExpandAll(names), pattern, resource)
    {
      ghost var before := Value();
      HoldsIsView(index, before);
      var slice := Append(Nil, resource);
      var rules: SliceRules := map[pattern := slice];
      assert forall a :: a in Stores(rules) ==> a == slice.store;
      assert Holds(rules, map[pattern := [resource]]);
      ghost var done: seq<EventName> := [];
      for i := 0 to |names|
        invariant done == ExpandAll(names[..i])
        invariant Subscribing(index, rules, before, done, pattern, resource, Repr)
        invariant fresh(Repr - old(Repr))
      {
        assert names[..i + 1][..i] == names[..i];
        index, Repr := SubscribeAll(index, Expand(names[i]), rules, done, pattern, resource, before, Repr);
        done := done + Expand(names[i]);
      }
      assert names[..|names|] == names;
      HoldsIsView(index, RulesIndex.AddNames(before, done, pattern, resource));
    }

    /** Adds the given rules map; the two share no arrays before, and the given one keeps its value. */
    method Add(other: RulesMap)
      requires Valid() && other.Valid() && other != this && Repr !! other.Repr
      modifies this, other.Repr
      ensures Valid() && fresh(Repr - old(Repr) - old(other.Repr))
      ensures other.Valid() && other.Value() == old(other.Value())
      ensures Value() == AddIndex(old(Value()), old(other.Value()))
    {
      ghost var v, w := Value(), other.Value();
      HoldsIsView(index, v);
      HoldsIsView(other.index, w);
      index, Repr := MergeAll(index, other.index, v, w, Repr + other.Repr);
      HoldsIsView(index, AddIndex(v, w));
      HoldsIsView(other.index, w);
    }
  }
}
