/**
 Small facts about sequences that several components share.
 */
module Collections {

  datatype Option<+T> = None | Some(value: T)

  predicate Sorted(s: seq<nat>) {
    forall i, j :: 0 <= i < j < |s| ==> s[i] <= s[j]
  }

  predicate Increasing(s: seq<nat>) {
    forall i, j :: 0 <= i < j < |s| ==> s[i] < s[j]
  }

  ghost predicate Distinct<T>(s: seq<T>) {
    forall i, j :: 0 <= i < j < |s| ==> s[i] != s[j]
  }

  lemma TakeSnoc<T>(s: seq<T>, i: nat)
    requires i < |s|
    ensures s[..i + 1] == s[..i] + [s[i]]
  {
  }

  /** A slice of a slice is a slice of the whole. */
  lemma SliceOfSlice<T>(s: seq<T>, a: nat, b: nat, off: nat, n: nat)
    requires a <= b <= |s| && a + off + n <= b
    ensures s[a..b][off..off + n] == s[a + off..a + off + n]
  {
    var x, y := s[a..b][off..off + n], s[a + off..a + off + n];
    assert forall i :: 0 <= i < n ==> x[i] == s[a + off + i] == y[i];
  }

  function Filter<T(!new)>(keep: T -> bool, s: seq<T>): (r: seq<T>)
    ensures |r| <= |s|
    ensures forall x :: x in r <==> x in s && keep(x)
  {
    if s == [] then []
    else (if keep(s[0]) then [s[0]] else []) + Filter(keep, s[1..])
  }

  lemma {:induction false} FilterCongruence<T(!new)>(p: T -> bool, q: T -> bool, s: seq<T>)
    requires forall x :: x in s ==> p(x) == q(x)
    ensures Filter(p, s) == Filter(q, s)
  {
    if s != [] {
      FilterCongruence(p, q, s[1..]);
    }
  }

  lemma {:induction false} FilterSnoc<T(!new)>(keep: T -> bool, s: seq<T>, x: T)
    ensures Filter(keep, s + [x]) == Filter(keep, s) + if keep(x) then [x] else []
  {
    if s == [] {
      assert s + [x] == [x];
    } else {
      assert (s + [x])[1..] == s[1..] + [x];
      FilterSnoc(keep, s[1..], x);
    }
  }

  /** Of distinct elements the filter keeps as many as satisfy it. */
  lemma {:induction false} FilterCounts<T(!new)>(keep: T -> bool, s: seq<T>, kept: set<T>)
    requires Distinct(s) && forall x :: x in kept <==> x in s && keep(x)
    ensures |Filter(keep, s)| == |kept|
  {
    if s == [] {
      assert kept == {};
    } else {
      assert s == [s[0]] + s[1..] && s[0] !in s[1..];
      FilterCounts(keep, s[1..], kept - {s[0]});
      assert keep(s[0]) ==> s[0] in kept;
      assert !keep(s[0]) ==> kept - {s[0]} == kept;
    }
  }

  lemma {:induction false} FilterNone<T(!new)>(keep: T -> bool, s: seq<T>)
    requires forall x :: x in s ==> !keep(x)
    ensures Filter(keep, s) == []
  {
    if s != [] {
      FilterNone(keep, s[1..]);
    }
  }

  lemma {:induction false} FilterFewer<T(!new)>(p: T -> bool, q: T -> bool, s: seq<T>)
    requires forall x :: x in s && p(x) ==> q(x)
    ensures |Filter(p, s)| <= |Filter(q, s)|
    ensures (exists x :: x in s && q(x) && !p(x)) ==> |Filter(p, s)| < |Filter(q, s)|
  {
    if s != [] {
      FilterFewer(p, q, s[1..]);
      assert s == [s[0]] + s[1..];
    }
  }

  /** The largest element, or `least` when everything is smaller. */
  function MaxOf(s: seq<nat>, least: nat): (m: nat)
    ensures least <= m && forall x :: x in s ==> x <= m
    ensures m == least || m in s
  {
    if s == [] then least
    else
      var m := MaxOf(s[1..], least);
      assert s == [s[0]] + s[1..];
      if s[0] > m then s[0] else m
  }
}
