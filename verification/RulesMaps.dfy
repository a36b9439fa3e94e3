/**
  Rules and RulesMap as the program builds them: maps whose values are slices.

  A slice is an array with a length; appending writes into the array while there is room and moves
  to a new array otherwise.  Clone copies the slices, not the arrays, so the receiver of Union and
  its result share arrays.  The methods below are proved to compute the values of RulesIndex
  nevertheless, and to leave the contents of their arguments as they were.
 */
module RulesMaps {
  import opened Resources
  import opened RulesIndex

  datatype Slice = Nil | Slice(store: array<Resource>, len: nat)

  ghost predicate Fits(s: Slice) {
    s.Slice? ==> s.len <= s.store.Length
  }

  ghost function Store(s: Slice): set<array<Resource>> {
    if s.Slice? then {s.store} else {}
  }

  function Items(s: Slice): seq<Resource>
    requires Fits(s)
    reads Store(s)
  {
    if s.Slice? then s.store[..s.len] else []
  }

  /** Go's append of one element; how much room a new array has is left open. */
  method Append(s: Slice, r: Resource) returns (t: Slice)
    requires Fits(s)
    modifies Store(s)
    ensures t.Slice? && Fits(t) && t.len == old(|Items(s)|) + 1
    ensures Items(t) == old(Items(s)) + [r]
    ensures (s.Slice? && t.store == s.store) || fresh(t.store)
    ensures s.Slice? ==> forall k :: 0 <= k < s.len ==> s.store[k] == old(s.store[k])
  {
    match s
    case Slice(store, len) =>
      if len < store.Length {
        store[len] := r;
        t := Slice(store, len + 1);
      } else {
        var room: nat :| room > len;
        var grown := new Resource[room](k reads store => if 0 <= k < len <= store.Length then store[k] else r);
        t := Slice(grown, len + 1);
      }
    case Nil =>
      var room: nat :| room > 0;
      var grown := new Resource[room](_ => r);
      t := Slice(grown, 1);
  }

  type SliceRules = map<string, Slice>

  function SliceOf(rules: SliceRules, p: string): Slice {
    if p in rules then rules[p] else Nil
  }

  ghost function Stores(rules: SliceRules): set<array<Resource>> {
    set p | p in rules && rules[p].Slice? :: rules[p].store
  }

  /** No two patterns share an array. */
  ghost predicate Separate(rules: SliceRules) {
    && (forall p :: p in rules ==> Fits(rules[p]))
    && (forall p, q :: p in rules && q in rules && p != q && rules[p].Slice? && rules[q].Slice? ==>
          rules[p].store != rules[q].store)
  }

  ghost function View(rules: SliceRules): Rules
    requires Separate(rules)
    reads Stores(rules)
  {
    map p | p in rules :: Items(rules[p])
  }

  method Clone(rules: SliceRules) returns (rulesCopy: SliceRules)
    ensures rulesCopy == rules
  {
    rulesCopy := map[];
    var remaining := rules.Keys;
    while remaining != {}
      invariant remaining <= rules.Keys
      invariant rulesCopy.Keys == rules.Keys - remaining
      invariant forall p :: p in rulesCopy ==> rulesCopy[p] == rules[p]
      decreases |remaining|
    {
      var p :| p in remaining;
      rulesCopy := rulesCopy[p := rules[p]];
      remaining := remaining - {p};
    }
  }

  /** The inner loop of Union: appends the elements of one slice to another. */
  method AppendAll(s: Slice, more: Slice) returns (t: Slice)
    requires Fits(s) && Fits(more) && Store(s) !! Store(more)
    modifies Store(s)
    ensures Fits(t) && Items(t) == old(Items(s)) + old(Items(more))
    ensures SameOrGrown(s, t) || (t.Slice? && fresh(t.store))
    ensures s.Slice? ==> s.store[..s.len] == old(s.store[..s.len])
  {
    t := s;
    var count := if more.Slice? then more.len else 0;
    for j := 0 to count
      invariant Fits(t) && Items(t) == old(Items(s)) + old(Items(more))[..j]
      invariant SameOrGrown(s, t) || (t.Slice? && fresh(t.store))
      invariant Items(more) == old(Items(more))
      invariant s.Slice? ==> s.store[..s.len] == old(s.store[..s.len])
    {
      t := Append(t, more.store[j]);
    }
    assert old(Items(more))[..count] == old(Items(more));
  }

  /** t is s, or s with more elements in the same array. */
  ghost predicate SameOrGrown(s: Slice, t: Slice) {
    t == s || (s.Slice? && t.Slice? && t.store == s.store && t.len >= s.len)
  }

  ghost predicate Disjoint(a: SliceRules, b: SliceRules) {
    forall p, q :: p in a && q in b && a[p].Slice? && b[q].Slice? ==> a[p].store != b[q].store
  }

  /** The slices hold exactly these resources. */
  ghost predicate Holds(rules: SliceRules, a: Rules)
    reads Stores(rules)
  {
    Separate(rules) && a.Keys == rules.Keys && forall p :: p in rules ==> Items(rules[p]) == a[p]
  }

  /** One pattern of the argument: only the array of that pattern is written, beyond its length,
      so the receiver and the argument still hold what they held. */
  method UnionPattern(n: SliceRules, p: string, rules: SliceRules, rules2: SliceRules, ghost a: Rules, ghost b: Rules)
    returns (m: SliceRules, ghost news: set<array<Resource>>)
    requires Separate(n) && Holds(rules, a) && Holds(rules2, b) && Disjoint(rules, rules2)
    requires Disjoint(n, rules2) && p in rules2 && SliceOf(n, p) == SliceOf(rules, p) && (p in n <==> p in rules)
    modifies Store(SliceOf(rules, p))
    ensures Separate(m) && Holds(rules, a) && Holds(rules2, b)
    ensures m.Keys == n.Keys + if b[p] == [] then {} else {p}
    ensures forall q :: q in m && q != p ==> m[q] == n[q] && Items(m[q]) == old(Items(n[q]))
    ensures p in m ==> Items(m[p]) == Get(a, p) + b[p]
    ensures fresh(news)
    ensures p in m ==> (p in n && SameOrGrown(n[p], m[p])) || (m[p].Slice? && m[p].store in news)
  {
    m := n;
    var s := SliceOf(n, p);
    assert Store(s) <= Stores(n);
    var t := AppendAll(s, rules2[p]);
    assert forall q :: q in n && q != p ==> Items(n[q]) == old(Items(n[q]));
    if rules2[p].Slice? && rules2[p].len > 0 {
      m := m[p := t];
    }
    news := if SameOrGrown(s, t) then {} else {t.store};
  }

  /** The state of Union's loop: the patterns in `remaining` are still to be merged, and the arrays
      in `own` are new. */
  ghost predicate Merging(rules: SliceRules, rules2: SliceRules, n: SliceRules, remaining: set<string>,
                          own: set<array<Resource>>, a: Rules, b: Rules)
    reads Stores(rules), Stores(rules2), Stores(n)
  {
    && Holds(rules, a) && Holds(rules2, b) && Disjoint(rules, rules2) && Separate(n)
    && remaining <= rules2.Keys && own !! Stores(rules) && own !! Stores(rules2)
    && (forall p :: p in n ==> (p in rules && SameOrGrown(rules[p], n[p])) || (n[p].Slice? && n[p].store in own))
    && (forall p :: p in remaining ==> SliceOf(n, p) == SliceOf(rules, p) && (p in n <==> p in rules))
    && (forall p :: p in n <==> p in a || (p in b && p !in remaining && b[p] != []))
    && (forall p :: p in n ==> Items(n[p]) == if p in remaining then Get(a, p) else Get(a, p) + Get(b, p))
  }

  method MergeNext(rules: SliceRules, rules2: SliceRules, n: SliceRules, remaining: set<string>, p: string,
                   ghost own: set<array<Resource>>, ghost a: Rules, ghost b: Rules)
    returns (m: SliceRules, ghost own': set<array<Resource>>)
    requires Merging(rules, rules2, n, remaining, own, a, b) && p in remaining
    modifies Stores(rules)
    ensures Merging(rules, rules2, m, remaining - {p}, own', a, b)
    ensures fresh(own' - own)
  {
    assert Store(SliceOf(rules, p)) <= Stores(rules);
    ghost var news;
    m, news := UnionPattern(n, p, rules, rules2, a, b);
    own' := own + news;
    Merged(rules, rules2, n, m, remaining, p, own, own', a, b);
  }

  lemma Merged(rules: SliceRules, rules2: SliceRules, n: SliceRules, m: SliceRules, remaining: set<string>, p: string,
               own: set<array<Resource>>, own': set<array<Resource>>, a: Rules, b: Rules)
    requires Holds(rules, a) && Holds(rules2, b) && Disjoint(rules, rules2) && Separate(m)
    requires remaining <= rules2.Keys && p in remaining && own <= own'
    requires own' !! Stores(rules) && own' !! Stores(rules2)
    requires forall q :: q in n ==> (q in rules && SameOrGrown(rules[q], n[q])) || (n[q].Slice? && n[q].store in own)
    requires forall q :: q in remaining ==> SliceOf(n, q) == SliceOf(rules, q) && (q in n <==> q in rules)
    requires forall q :: q in n <==> q in a || (q in b && q !in remaining && b[q] != [])
    requires m.Keys == n.Keys + if b[p] == [] then {} else {p}
    requires forall q :: q in m && q != p ==> m[q] == n[q]
    requires forall q :: q in m && q != p ==> Items(m[q]) == if q in remaining then Get(a, q) else Get(a, q) + Get(b, q)
    requires p in m ==> Items(m[p]) == Get(a, p) + b[p]
    requires p in m ==> (p in rules && SameOrGrown(rules[p], m[p])) || (m[p].Slice? && m[p].store in own')
    ensures Merging(rules, rules2, m, remaining - {p}, own', a, b)
  {
    forall q | q in m
      ensures (q in rules && SameOrGrown(rules[q], m[q])) || (m[q].Slice? && m[q].store in own')
      ensures Items(m[q]) == if q in remaining - {p} then Get(a, q) else Get(a, q) + Get(b, q)
    {
      if q != p { assert q in n && m[q] == n[q]; }
    }
    forall q | q in remaining - {p} ensures SliceOf(m, q) == SliceOf(rules, q) && (q in m <==> q in rules) {
      assert SliceOf(m, q) == SliceOf(n, q);
    }
  }

  lemma MergeStart(rules: SliceRules, rules2: SliceRules)
    requires Separate(rules) && Separate(rules2) && Disjoint(rules, rules2)
    ensures Merging(rules, rules2, rules, rules2.Keys, {}, View(rules), View(rules2))
  {
  }

  lemma MergeEnd(rules: SliceRules, rules2: SliceRules, n: SliceRules, own: set<array<Resource>>, a: Rules, b: Rules)
    requires Merging(rules, rules2, n, {}, own, a, b)
    ensures View(rules) == a && View(rules2) == b && View(n) == RulesIndex.Union(a, b)
  {
    UnionValue(a, b, View(n));
  }

  lemma UnionValue(a: Rules, b: Rules, c: Rules)
    requires forall p :: p in c <==> p in a || (p in b && b[p] != [])
    requires forall p :: p in c ==> c[p] == Get(a, p) + Get(b, p)
    ensures c == RulesIndex.Union(a, b)
  {
  }

  /** Receiver and argument keep their contents; the result shares arrays with the receiver only. */
  method Union(rules: SliceRules, rules2: SliceRules)
    returns (nrules: SliceRules, ghost news: set<array<Resource>>)
    requires Separate(rules) && Separate(rules2) && Disjoint(rules, rules2)
    modifies Stores(rules)
    ensures Separate(nrules)
    ensures View(nrules) == RulesIndex.Union(old(View(rules)), old(View(rules2)))
    ensures View(rules) == old(View(rules)) && View(rules2) == old(View(rules2))
    ensures fresh(news)
    ensures forall p :: p in nrules && nrules[p].Slice? ==>
      (p in rules && SameOrGrown(rules[p], nrules[p])) || nrules[p].store in news
  {
    ghost var a, b := View(rules), View(rules2);
    news := {};
    nrules := Clone(rules);
    var remaining := rules2.Keys;
    MergeStart(rules, rules2);
    while remaining != {}
      invariant Merging(rules, rules2, nrules, remaining, news, a, b) && fresh(news)
      decreases |remaining|
    {
      var p :| p in remaining;
      nrules, news := MergeNext(rules, rules2, nrules, remaining, p, news, a, b);
      remaining := remaining - {p};
    }
    MergeEnd(rules, rules2, nrules, news, a, b);
  }
}
