/**
 Stable argsort, and the inverse permutation it gives when applied twice.
 */
module Sorting {
  import opened Collections

  /** Sort keys: numbers in their order, and one key behind all of them. Floats are as
      good as the integers that order them. */
  datatype SortKey = Fin(value: int) | Last

  predicate Le(a: SortKey, b: SortKey) {
    b.Last? || (a.Fin? && a.value <= b.value)
  }

  /** Index `a` comes before index `b`: smaller key, or equal keys and smaller index. */
  predicate Before(keys: seq<SortKey>, a: nat, b: nat)
    requires a < |keys| && b < |keys|
  {
    Le(keys[a], keys[b]) && (Le(keys[b], keys[a]) ==> a < b)
  }

  /** Insert index `i` behind every index whose key is not larger. */
  function Insert(keys: seq<SortKey>, order: seq<nat>, i: nat): (r: seq<nat>)
    requires i < |keys| && forall j :: 0 <= j < |order| ==> order[j] < |keys|
    ensures |r| == |order| + 1 && forall j :: 0 <= j < |r| ==> r[j] < |keys|
  {
    if order == [] then [i]
    else
      var n := |order| - 1;
      if Le(keys[order[n]], keys[i]) then order + [i]
      else Insert(keys, order[..n], i) + [order[n]]
  }

  /** Indices of the first `n` keys in stable sorted order. */
  function SortFirst(keys: seq<SortKey>, n: nat): (order: seq<nat>)
    requires n <= |keys|
    ensures |order| == n && forall j :: 0 <= j < n ==> order[j] < |keys|
  {
    if n == 0 then [] else Insert(keys, SortFirst(keys, n - 1), n - 1)
  }

  function ArgSort(keys: seq<SortKey>): (order: seq<nat>)
    ensures |order| == |keys| && forall j :: 0 <= j < |keys| ==> order[j] < |keys|
  {
    SortFirst(keys, |keys|)
  }

  ghost predicate InOrder(keys: seq<SortKey>, order: seq<nat>) {
    && (forall j :: 0 <= j < |order| ==> order[j] < |keys|)
    && (forall i, j :: 0 <= i < j < |order| ==> Before(keys, order[i], order[j]))
  }

  /** `order` lists exactly the indices below n. */
  ghost predicate Lists(order: seq<nat>, n: nat) {
    forall i: nat :: i in order <==> i < n
  }

  lemma {:induction false} InsertAdds(keys: seq<SortKey>, order: seq<nat>, i: nat)
    requires i < |keys| && forall j :: 0 <= j < |order| ==> order[j] < |keys|
    ensures forall x :: x in Insert(keys, order, i) <==> x == i || x in order
  {
    if order != [] {
      var n := |order| - 1;
      assert order == order[..n] + [order[n]];
      if !Le(keys[order[n]], keys[i]) {
        InsertAdds(keys, order[..n], i);
      }
    }
  }

  lemma {:induction false} InsertInOrder(keys: seq<SortKey>, order: seq<nat>, i: nat)
    requires i < |keys| && InOrder(keys, order)
    requires forall j :: 0 <= j < |order| ==> order[j] < i
    ensures InOrder(keys, Insert(keys, order, i))
  {
    if order != [] {
      var n := |order| - 1;
      var last := order[n];
      if Le(keys[last], keys[i]) {
        forall j | 0 <= j < |order|
          ensures Before(keys, order[j], i)
        {
          assert j < n ==> Before(keys, order[j], last);
        }
      } else {
        InsertInOrder(keys, order[..n], i);
        InsertAdds(keys, order[..n], i);
        var r := Insert(keys, order[..n], i);
        forall j | 0 <= j < |r|
          ensures Before(keys, r[j], last)
        {
          assert r[j] in r;
          if r[j] != i {
            var k :| 0 <= k < n && order[..n][k] == r[j];
            assert Before(keys, order[k], last);
          }
        }
      }
    }
  }

  lemma {:induction false} SortFirstSorts(keys: seq<SortKey>, n: nat)
    requires n <= |keys|
    ensures InOrder(keys, SortFirst(keys, n)) && Lists(SortFirst(keys, n), n)
  {
    if n > 0 {
      SortFirstSorts(keys, n - 1);
      var order := SortFirst(keys, n - 1);
      forall j | 0 <= j < |order|
        ensures order[j] < n - 1
      {
        assert order[j] in order;
      }
      InsertInOrder(keys, order, n - 1);
      InsertAdds(keys, order, n - 1);
    }
  }

  /** The argsort lists every index once, in stable order. */
  lemma ArgSortSorts(keys: seq<SortKey>)
    ensures InOrder(keys, ArgSort(keys)) && Lists(ArgSort(keys), |keys|)
    ensures Distinct(ArgSort(keys))
  {
    SortFirstSorts(keys, |keys|);
    var order := ArgSort(keys);
    forall i, j | 0 <= i < j < |order|
      ensures order[i] != order[j]
    {
      assert Before(keys, order[i], order[j]);
    }
  }

  /** There is only one stable order of the same indices. */
  lemma {:induction false} StableOrderIsUnique(keys: seq<SortKey>, a: seq<nat>, b: seq<nat>)
    requires InOrder(keys, a) && InOrder(keys, b) && forall x :: x in a <==> x in b
    ensures a == b
    decreases |a|
  {
    if a == [] {
      EmptyTogether(b);
    } else if b == [] {
      EmptyTogether(a);
    } else {
      LastIsLast(keys, a, b);
      LastIsLast(keys, b, a);
      var x := a[|a| - 1];
      assert b[|b| - 1] == x;
      FrontMembers(keys, a);
      FrontMembers(keys, b);
      var frontA, frontB := a[..|a| - 1], b[..|b| - 1];
      forall y
        ensures y in frontA <==> y in frontB
      {
        assert y in frontA <==> y in a && y != x;
        assert y in frontB <==> y in b && y != x;
      }
      StableOrderIsUnique(keys, frontA, frontB);
      assert a == a[..|a| - 1] + [x] && b == b[..|b| - 1] + [x];
    }
  }

  lemma EmptyTogether(b: seq<nat>)
    requires forall x :: x !in b
    ensures b == []
  {
    if b != [] {
      FirstIsMember(b);
    }
  }

  lemma FirstIsMember(b: seq<nat>)
    requires b != []
    ensures b[0] in b
  {
  }

  /** The last of one order does not come before the last of the other. */
  lemma LastIsLast(keys: seq<SortKey>, a: seq<nat>, b: seq<nat>)
    requires InOrder(keys, a) && InOrder(keys, b) && a != [] && b != [] && forall x :: x in b ==> x in a
    ensures b[|b| - 1] == a[|a| - 1] || Before(keys, b[|b| - 1], a[|a| - 1])
  {
    assert b[|b| - 1] in b;
    var i :| 0 <= i < |a| && a[i] == b[|b| - 1];
    assert i < |a| - 1 ==> Before(keys, a[i], a[|a| - 1]);
  }

  lemma FrontMembers(keys: seq<SortKey>, a: seq<nat>)
    requires InOrder(keys, a) && a != []
    ensures forall x :: x in a[..|a| - 1] <==> x in a && x != a[|a| - 1]
  {
    var n := |a| - 1;
    assert a == a[..n] + [a[n]];
    assert forall i :: 0 <= i < n ==> Before(keys, a[i], a[n]);
  }

  /** Sorting the first keys looks at no others. */
  lemma {:induction false} SortFirstIsLocal(keys: seq<SortKey>, keys': seq<SortKey>, n: nat)
    requires n <= |keys| && n <= |keys'| && keys[..n] == keys'[..n]
    ensures SortFirst(keys, n) == SortFirst(keys', n)
  {
    if n > 0 {
      assert keys[..n - 1] == keys[..n][..n - 1] == keys'[..n - 1];
      SortFirstIsLocal(keys, keys', n - 1);
      SortFirstSorts(keys, n - 1);
      var order := SortFirst(keys, n - 1);
      forall j | 0 <= j < |order|
        ensures order[j] < n
      {
        assert order[j] in order;
      }
      assert keys[n - 1] == keys[..n][n - 1] == keys'[n - 1];
      InsertIsLocal(keys, keys', order, n - 1, n);
    }
  }

  lemma {:induction false} InsertIsLocal(keys: seq<SortKey>, keys': seq<SortKey>, order: seq<nat>, i: nat, n: nat)
    requires i < n <= |keys| && n <= |keys'| && forall j :: 0 <= j < |order| ==> order[j] < n
    requires keys[..n] == keys'[..n]
    ensures Insert(keys, order, i) == Insert(keys', order, i)
  {
    if order != [] {
      var last := order[|order| - 1];
      assert keys[last] == keys[..n][last] == keys'[last] && keys[i] == keys[..n][i] == keys'[i];
      InsertIsLocal(keys, keys', order[..|order| - 1], i, n);
    }
  }

  /** Keys that come last stay behind, in their own order. */
  lemma {:induction false} LastKeysStayBehind(keys: seq<SortKey>, n: nat, m: nat)
    requires n <= m <= |keys| && forall i :: n <= i < m ==> keys[i].Last?
    ensures SortFirst(keys, m)[..n] == SortFirst(keys, n)
    ensures forall j :: n <= j < m ==> SortFirst(keys, m)[j] == j
    decreases m
  {
    if n < m {
      LastKeysStayBehind(keys, n, m - 1);
      var order := SortFirst(keys, m - 1);
      assert SortFirst(keys, m) == order + [m - 1];
    } else {
      assert SortFirst(keys, m)[..n] == SortFirst(keys, m);
    }
  }

  /** Sorting with last keys behind is sorting without them, up to where they start. */
  lemma SortWithLastKeys(keys: seq<SortKey>, few: seq<SortKey>)
    requires |few| <= |keys| && keys[..|few|] == few && forall i :: |few| <= i < |keys| ==> keys[i].Last?
    ensures ArgSort(keys)[..|few|] == ArgSort(few)
    ensures forall j :: |few| <= j < |keys| ==> ArgSort(keys)[j] == j
  {
    assert few[..|few|] == few;
    LastKeysStayBehind(keys, |few|, |keys|);
    SortFirstIsLocal(keys, few, |few|);
  }

  /** The front of a listing has distinct entries, and all of them when it is all of it. */
  lemma FrontOfListing(order: seq<nat>, n: nat, m: nat)
    requires Distinct(order) && Lists(order, n) && m <= |order|
    ensures Distinct(order[..m]) && forall x :: x in order[..m] ==> x < n
    ensures m == |order| ==> order[..m] == order
  {
    forall x | x in order[..m]
      ensures x < n
    {
      assert x in order;
    }
  }

  /** Numbers as sort keys. */
  function Keys(s: seq<nat>): (keys: seq<SortKey>)
    ensures |keys| == |s| && forall i :: 0 <= i < |s| ==> keys[i] == Fin(s[i])
  {
    seq(|s|, i requires 0 <= i < |s| => Fin(s[i]))
  }

  lemma {:induction false} IncreasingBelowIsIdentity(s: seq<nat>, n: nat, i: nat)
    requires Increasing(s) && |s| == n && i < n && forall j :: 0 <= j < n ==> s[j] < n
    ensures s[i] == i
    decreases i
  {
    IncreasingIsAtLeastIndex(s, i);
    IncreasingLeavesRoom(s, n, i);
  }

  lemma {:induction false} IncreasingIsAtLeastIndex(s: seq<nat>, i: nat)
    requires Increasing(s) && i < |s|
    ensures s[i] >= i
  {
    if i > 0 {
      IncreasingIsAtLeastIndex(s, i - 1);
    }
  }

  lemma {:induction false} IncreasingLeavesRoom(s: seq<nat>, n: nat, i: nat)
    requires Increasing(s) && |s| == n && i < n && forall j :: 0 <= j < n ==> s[j] < n
    ensures s[i] <= i
    decreases n - i
  {
    if i + 1 < n {
      IncreasingLeavesRoom(s, n, i + 1);
    }
  }

  /** Argsort of a permutation is its inverse. */
  lemma ArgSortInverts(order: seq<nat>, i: nat)
    requires Distinct(order) && Lists(order, |order|) && i < |order|
    ensures var inv := ArgSort(Keys(order)); inv[i] < |order| && order[inv[i]] == i
  {
    var inv := ArgSort(Keys(order));
    ArgSortSorts(Keys(order));
    var s := seq(|order|, k requires 0 <= k < |order| => order[inv[k]]);
    forall a, b | 0 <= a < b < |s|
      ensures s[a] < s[b]
    {
      assert Before(Keys(order), inv[a], inv[b]);
      assert inv[a] != inv[b];
    }
    forall k | 0 <= k < |s|
      ensures s[k] < |order|
    {
      assert s[k] in order;
    }
    IncreasingBelowIsIdentity(s, |order|, i);
  }

  /******* Distinct values *******/

  function InsertUnique(s: seq<nat>, x: nat): (r: seq<nat>)
    requires Increasing(s)
    ensures Increasing(r) && forall y :: y in r <==> y in s || y == x
  {
    if s == [] then [x]
    else if x < s[0] then [x] + s
    else if x == s[0] then s
    else
      var rest := InsertUnique(s[1..], x);
      assert s == [s[0]] + s[1..];
      assert forall i :: 0 <= i < |rest| ==> rest[i] in rest;
      [s[0]] + rest
  }

  /** Sorted distinct values (`np.unique`). */
  function Unique(s: seq<nat>): (r: seq<nat>)
    ensures Increasing(r) && forall y :: y in r <==> y in s
  {
    if s == [] then []
    else
      assert s == s[..|s| - 1] + [s[|s| - 1]];
      InsertUnique(Unique(s[..|s| - 1]), s[|s| - 1])
  }

  /** The `return_inverse` of `np.unique`. */
  function IndexIn(s: seq<nat>, x: nat): (i: nat)
    requires x in s
    ensures i < |s| && s[i] == x
  {
    if s[0] == x then 0 else IndexIn(s[1..], x) + 1
  }

  /** How many leading entries of a sorted sequence are at most `v`. */
  function Boundary(s: seq<nat>, v: int): (b: nat)
    ensures b <= |s|
  {
    if s == [] then 0
    else if s[|s| - 1] <= v then |s|
    else Boundary(s[..|s| - 1], v)
  }

  lemma {:induction false} BoundarySplits(s: seq<nat>, v: int, i: nat)
    requires Sorted(s) && i < |s|
    ensures i < Boundary(s, v) <==> s[i] <= v
  {
    var n := |s| - 1;
    if s[n] > v && i < n {
      BoundarySplits(s[..n], v, i);
    }
  }

  /** The values between two neighbouring boundaries are all the same. */
  lemma RunBetweenBoundaries(s: seq<nat>, uniq: seq<nat>, u: nat, i: nat)
    requires Sorted(s) && Increasing(uniq) && u < |uniq| && i < |s| && s[i] in uniq
    ensures (if u == 0 then 0 else Boundary(s, uniq[u - 1])) <= i < Boundary(s, uniq[u]) <==> s[i] == uniq[u]
  {
    BoundarySplits(s, uniq[u], i);
    if u > 0 {
      BoundarySplits(s, uniq[u - 1], i);
    }
    var k :| 0 <= k < |uniq| && uniq[k] == s[i];
  }
}
