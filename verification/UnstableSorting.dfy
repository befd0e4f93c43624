/**
 What any argsort agrees on, stable or not: the first `k` entries, as a set, are the same
 for all of them if and only if no two equal keys lie across that boundary.
 */
module UnstableSorting {
  import opened Collections
  import opened Sorting

  /** `order` lists every index once, smaller keys first; equal keys are in any order. */
  ghost predicate SortsBy(keys: seq<SortKey>, order: seq<nat>) {
    && |order| == |keys| && Distinct(order) && Lists(order, |keys|)
    && forall i, j :: 0 <= i < j < |order| ==> AtMost(keys, order[i], order[j])
  }

  ghost predicate AtMost(keys: seq<SortKey>, a: nat, b: nat) {
    a < |keys| && b < |keys| && Le(keys[a], keys[b])
  }

  ghost function Front(order: seq<nat>, k: nat): (front: set<nat>)
    requires k <= |order|
    ensures forall x :: x in front <==> exists j :: 0 <= j < k && order[j] == x
  {
    set j | 0 <= j < k :: order[j]
  }

  /** The keys on both sides of position `k` differ. */
  ghost predicate Separated(keys: seq<SortKey>, order: seq<nat>, k: nat) {
    0 < k < |order| ==> !AtMost(keys, order[k], order[k - 1])
  }

  lemma FrontGrows(order: seq<nat>, k: nat)
    requires 0 < k <= |order|
    ensures Front(order, k) == Front(order, k - 1) + {order[k - 1]}
  {
    forall x
      ensures x in Front(order, k) <==> x in Front(order, k - 1) || x == order[k - 1]
    {
      if x in Front(order, k) {
        var j :| 0 <= j < k && order[j] == x;
        assert j < k - 1 ==> x in Front(order, k - 1);
      }
    }
  }

  lemma {:induction false} FrontSize(order: seq<nat>, k: nat)
    requires Distinct(order) && k <= |order|
    ensures |Front(order, k)| == k
  {
    if k > 0 {
      FrontSize(order, k - 1);
      FrontGrows(order, k);
      assert forall j :: 0 <= j < k - 1 ==> order[j] != order[k - 1];
    }
  }

  lemma ArgSortSortsBy(keys: seq<SortKey>)
    ensures SortsBy(keys, ArgSort(keys))
  {
    ArgSortSorts(keys);
    var order := ArgSort(keys);
    forall i, j | 0 <= i < j < |order|
      ensures AtMost(keys, order[i], order[j])
    {
      assert Before(keys, order[i], order[j]);
    }
  }

  /** The entry of one order is somewhere in the other. */
  lemma Position(keys: seq<SortKey>, a: seq<nat>, b: seq<nat>, i: nat) returns (m: nat)
    requires SortsBy(keys, a) && SortsBy(keys, b) && i < |b|
    ensures m < |a| && a[m] == b[i]
  {
    assert b[i] in b && b[i] in a;
    m :| 0 <= m < |a| && a[m] == b[i];
  }

  /** An index at the front of `a` is at the front of `b`. */
  lemma FrontStays(keys: seq<SortKey>, a: seq<nat>, b: seq<nat>, k: nat, i: nat)
    requires SortsBy(keys, a) && SortsBy(keys, b) && Separated(keys, a, k) && i < k <= |a|
    ensures a[i] in Front(b, k)
  {
    FrontSize(a, k);
    FrontSize(b, k);
    if Front(b, k) <= Front(a, k) {
      CardinalityDecides(Front(b, k), Front(a, k));
    } else {
      var x :| x in Front(b, k) && x !in Front(a, k);
      var j :| 0 <= j < k && b[j] == x;
      var m := Position(keys, a, b, j);
      var n := Position(keys, b, a, i);
      if n >= k {
        Crossing(keys, a, b, k, i, j, m, n);
      }
    }
  }

  lemma CardinalityDecides(a: set<nat>, b: set<nat>)
    requires a <= b && |a| == |b|
    ensures a == b
  {
    if x :| x in b && x !in a {
      Smaller(a, b - {x});
    }
  }

  lemma {:induction false} Smaller(a: set<nat>, b: set<nat>)
    requires a <= b
    ensures |a| <= |b|
    decreases |a|
  {
    if x :| x in a {
      Smaller(a - {x}, b - {x});
    }
  }

  /** When two indices swap sides the keys at the boundary are equal. */
  lemma Crossing(keys: seq<SortKey>, a: seq<nat>, b: seq<nat>, k: nat, i: nat, j: nat, m: nat, n: nat)
    requires SortsBy(keys, a) && SortsBy(keys, b)
    requires i < k <= m < |a| && j < k <= n < |b| && a[i] == b[n] && b[j] == a[m]
    ensures AtMost(keys, a[k], a[k - 1])
  {
    assert AtMost(keys, b[j], b[n]);
    TieShows(keys, a, k, i, m);
  }

  /** A tie across the boundary is one at the boundary. */
  lemma TieShows(keys: seq<SortKey>, a: seq<nat>, k: nat, i: nat, m: nat)
    requires SortsBy(keys, a) && i < k <= m < |a| && AtMost(keys, a[m], a[i])
    ensures AtMost(keys, a[k], a[k - 1])
  {
    assert i < k - 1 ==> AtMost(keys, a[i], a[k - 1]);
    assert k < m ==> AtMost(keys, a[k], a[m]);
  }

  /** All argsorts have the same indices in front, unless equal keys lie across the boundary. */
  lemma FrontsAgree(keys: seq<SortKey>, a: seq<nat>, k: nat)
    requires SortsBy(keys, a) && k <= |a|
    ensures (forall b :: SortsBy(keys, b) ==> Front(b, k) == Front(a, k)) <==> Separated(keys, a, k)
  {
    if Separated(keys, a, k) {
      forall b | SortsBy(keys, b)
        ensures Front(b, k) == Front(a, k)
      {
        forall i | 0 <= i < k
          ensures a[i] in Front(b, k)
        {
          FrontStays(keys, a, b, k, i);
        }
        FrontSize(a, k);
        FrontSize(b, k);
        CardinalityDecides(Front(a, k), Front(b, k));
      }
    } else {
      var b := a[k - 1 := a[k]][k := a[k - 1]];
      SwapSorts(keys, a, b, k);
      assert a[k] == b[k - 1] && a[k] in Front(b, k);
      assert a[k] !in Front(a, k);
    }
  }

  /** Swapping equal neighbours gives another order. */
  lemma SwapSorts(keys: seq<SortKey>, a: seq<nat>, b: seq<nat>, k: nat)
    requires SortsBy(keys, a) && 0 < k < |a| && AtMost(keys, a[k], a[k - 1]) && b == a[k - 1 := a[k]][k := a[k - 1]]
    ensures SortsBy(keys, b)
  {
    forall x: nat
      ensures x in b <==> x in a
    {
      if x in a {
        var i :| 0 <= i < |a| && a[i] == x;
        assert b[if i == k - 1 then k else if i == k then k - 1 else i] == x;
      }
      if x in b {
        var i :| 0 <= i < |b| && b[i] == x;
        assert a[if i == k - 1 then k else if i == k then k - 1 else i] == x;
      }
    }
    forall i, j | 0 <= i < j < |b|
      ensures AtMost(keys, b[i], b[j])
    {
      var i', j' := (if i == k - 1 then k else if i == k then k - 1 else i), if j == k - 1 then k else if j == k then k - 1 else j;
      assert b[i] == a[i'] && b[j] == a[j'];
      assert i' < j' ==> AtMost(keys, a[i'], a[j']);
    }
  }
}
