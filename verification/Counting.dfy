/** Counting facts: initial segments of the naturals, set sizes, and the pigeonhole principle. */
module Counting {

  function UpTo(n: nat): (r: set<nat>)
    ensures forall x: nat :: x in r <==> x < n
    ensures |r| == n
  {
    if n == 0 then {} else UpTo(n - 1) + {n - 1}
  }

  lemma {:induction false} SubsetSize<T>(a: set<T>, b: set<T>)
    requires a <= b
    ensures |a| <= |b|
  {
    if a != {} {
      var x :| x in a;
      SubsetSize(a - {x}, b - {x});
    }
  }

  function Elements<T(!new)>(s: seq<T>): (r: set<T>)
    ensures forall x :: x in r <==> x in s
  {
    if s == [] then {} else Elements(s[1..]) + {s[0]}
  }

  lemma {:induction false} ElementsSize<T(!new)>(s: seq<T>)
    requires forall x :: multiset(s)[x] <= 1
    ensures |Elements(s)| == |s|
  {
    if s != [] {
      var rest := s[1..];
      assert s == [s[0]] + rest;
      forall x ensures multiset(rest)[x] <= 1 {
        assert multiset(s)[x] <= 1;
      }
      assert multiset(s)[s[0]] == multiset(rest)[s[0]] + 1;
      assert s[0] !in rest;
      ElementsSize(rest);
    }
  }

  /** n numbers below n without repetition include each of them. */
  lemma {:induction false} FullWithoutRepeats(ids: seq<nat>, n: nat, i: nat)
    requires |ids| == n && i < n
    requires forall j: nat :: multiset(ids)[j] <= if j < n then 1 else 0
    ensures multiset(ids)[i] == 1
  {
    if multiset(ids)[i] == 0 {
      ElementsSize(ids);
      forall x | x in Elements(ids) ensures x in UpTo(n) - {i} {
        assert multiset(ids)[x] > 0;
      }
      SubsetSize(Elements(ids), UpTo(n) - {i});
      assert false;
    }
  }

  /** Two sequences that are permutations of each other: dropping the same element keeps them so. */
  lemma MultisetSplit<T>(s: seq<T>, k: nat)
    requires k < |s|
    ensures s == s[..k] + [s[k]] + s[k + 1..]
    ensures multiset(s) == multiset(s[..k] + s[k + 1..]) + multiset{s[k]}
  {
  }

  lemma MultisetMiddle<T>(x: seq<T>, y: seq<T>, z: seq<T>)
    ensures multiset(x + (y + z)) == multiset(x + z) + multiset(y)
  {
  }

  lemma MultisetCancel<T>(x: multiset<T>, y: multiset<T>, z: multiset<T>)
    requires x + z == y + z
    ensures x == y
  {
    assert x == (x + z) - z;
    assert y == (y + z) - z;
  }

  /** The values are listed in the order the indices say, each index once. */
  ghost predicate Lists<T>(ids: seq<nat>, values: seq<T>, indexed: seq<T>) {
    && |ids| == |values| == |indexed|
    && (forall i: nat :: i < |indexed| ==> multiset(ids)[i] == 1)
    && (forall k :: 0 <= k < |ids| ==> ids[k] < |indexed| && values[k] == indexed[ids[k]])
  }

  lemma ListsWithoutLast<T>(ids: seq<nat>, values: seq<T>, indexed: seq<T>, k: nat)
    requires Lists(ids, values, indexed) && k < |ids| && ids[k] == |ids| - 1
    ensures Lists(ids[..k] + ids[k + 1..], values[..k] + values[k + 1..], indexed[..|ids| - 1])
  {
    var last: nat := |ids| - 1;
    var ids', values' := ids[..k] + ids[k + 1..], values[..k] + values[k + 1..];
    MultisetSplit(ids, k);
    forall i: nat | i < last ensures multiset(ids')[i] == 1 {
      assert multiset(ids)[i] == 1;
    }
    forall m | 0 <= m < |ids'| ensures ids'[m] < last && values'[m] == indexed[..last][ids'[m]] {
      var n := if m < k then m else m + 1;
      assert ids'[m] == ids[n] && values'[m] == values[n];
      assert ids'[m] in multiset(ids');
      assert multiset(ids)[last] == 1;
    }
  }

  lemma {:induction false} PermutedValues<T>(ids: seq<nat>, values: seq<T>, indexed: seq<T>)
    requires Lists(ids, values, indexed)
    ensures multiset(values) == multiset(indexed)
  {
    if ids == [] {
      assert values == indexed;
    } else {
      var last: nat := |indexed| - 1;
      assert multiset(ids)[last] == 1;
      var k: nat :| k < |ids| && ids[k] == last;
      ListsWithoutLast(ids, values, indexed, k);
      PermutedValues(ids[..k] + ids[k + 1..], values[..k] + values[k + 1..], indexed[..last]);
      MultisetSplit(values, k);
      MultisetSplit(indexed, last);
      assert indexed[..last] + indexed[last + 1..] == indexed[..last];
    }
  }
}
