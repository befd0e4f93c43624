/**
 Ordered dictionaries as least-recently-used stores: keys from the oldest to the
 newest, and what one operation does to that order.
 */
module Recency {
  import opened Collections

  /** The order without a key. */
  function Without<K(==)>(order: seq<K>, k: K): (r: seq<K>)
    ensures |r| <= |order|
  {
    if order == [] then []
    else if order[0] == k then Without(order[1..], k)
    else [order[0]] + Without(order[1..], k)
  }

  /** `move_to_end`. */
  function Touch<K(==)>(order: seq<K>, k: K): seq<K> {
    Without(order, k) + [k]
  }

  lemma {:induction false} WithoutKeeps<K>(order: seq<K>, k: K)
    ensures forall x :: x in Without(order, k) <==> x in order && x != k
    ensures Distinct(order) ==> Distinct(Without(order, k))
    ensures k !in order ==> Without(order, k) == order
    ensures Distinct(order) && k in order ==> |Without(order, k)| == |order| - 1
  {
    if order != [] {
      var rest := order[1..];
      assert order == [order[0]] + rest;
      WithoutKeeps(rest, k);
      if Distinct(order) {
        assert order[0] !in rest;
        if order[0] == k {
          assert Without(rest, k) == rest;
        }
      }
    }
  }

  lemma TouchKeeps<K>(order: seq<K>, k: K)
    ensures forall x :: x in Touch(order, k) <==> x in order || x == k
    ensures Distinct(order) ==> Distinct(Touch(order, k))
    ensures Distinct(order) ==> |Touch(order, k)| == |order| + if k in order then 0 else 1
    ensures k !in order ==> Touch(order, k) == order + [k]
  {
    WithoutKeeps(order, k);
    var rest := Without(order, k);
    assert k !in rest;
  }

  lemma DistinctTail<K>(order: seq<K>)
    requires Distinct(order) && order != []
    ensures Distinct(order[1..]) && order[0] !in order[1..]
    ensures forall x :: x in order[1..] <==> x in order && x != order[0]
  {
    assert order == [order[0]] + order[1..];
  }

  /** `a` is what is left of `b` after deleting some keys: same relative order. */
  ghost predicate Subsequence<K>(a: seq<K>, b: seq<K>) {
    if a == [] then true
    else if b == [] then false
    else if a[0] == b[0] then Subsequence(a[1..], b[1..])
    else Subsequence(a, b[1..])
  }

  lemma {:induction false} SubsequenceDrops<K>(a: seq<K>, b: seq<K>)
    requires Subsequence(a, b)
    ensures |a| <= |b|
    ensures a != [] ==> Subsequence(a[1..], b)
    ensures a != [] && b != [] ==> Subsequence(a[1..], b[1..])
    decreases |b|
  {
    if a != [] && b != [] {
      if a[0] == b[0] {
        SubsequenceWeaken(a[1..], b);
        SubsequenceDrops(a[1..], b[1..]);
      } else {
        SubsequenceDrops(a, b[1..]);
        SubsequenceWeaken(a[1..], b);
      }
    }
  }

  /** What fits into the tail fits into the whole. */
  lemma {:induction false} SubsequenceWeaken<K>(a: seq<K>, b: seq<K>)
    requires b != [] && Subsequence(a, b[1..])
    ensures Subsequence(a, b)
    decreases |b|
  {
    if a != [] && a[0] == b[0] {
      SubsequenceSkipsHead(a, b[1..]);
    }
  }

  lemma {:induction false} SubsequenceSkipsHead<K>(a: seq<K>, b: seq<K>)
    requires a != [] && Subsequence(a, b)
    ensures Subsequence(a[1..], b)
    decreases |b|
  {
    if b != [] {
      if a[0] == b[0] {
        if a[1..] != [] && a[1..][0] == b[0] {
          SubsequenceSkipsHead(a[1..], b[1..]);
        }
      } else {
        SubsequenceSkipsHead(a, b[1..]);
        if a[1..] != [] && a[1..][0] == b[0] {
          SubsequenceSkipsHead(a[1..], b[1..]);
        }
      }
    }
  }

  lemma {:induction false} SubsequenceMembers<K>(a: seq<K>, b: seq<K>, x: K)
    requires Subsequence(a, b) && x in a
    ensures x in b
    decreases |b|
  {
    assert a == [a[0]] + a[1..];
    if a[0] == b[0] {
      if x != a[0] {
        SubsequenceMembers(a[1..], b[1..], x);
      }
    } else {
      SubsequenceMembers(a, b[1..], x);
    }
  }

  lemma {:induction false} SubsequenceAppend<K>(a: seq<K>, b: seq<K>, k: K)
    requires Subsequence(a, b)
    ensures Subsequence(a + [k], b + [k]) && Subsequence(a, b + [k])
    decreases |b|
  {
    if b == [] {
      assert a == [];
    } else {
      assert (b + [k])[1..] == b[1..] + [k];
      if a == [] {
        SubsequenceAppend(a, b[1..], k);
        SubsequenceWeaken(a + [k], b + [k]);
      } else if a[0] == b[0] {
        assert (a + [k])[1..] == a[1..] + [k];
        SubsequenceAppend(a[1..], b[1..], k);
      } else {
        SubsequenceAppend(a, b[1..], k);
      }
    }
  }

  lemma {:induction false} SubsequenceWithout<K>(a: seq<K>, b: seq<K>, k: K)
    requires Subsequence(a, b)
    ensures Subsequence(Without(a, k), Without(b, k))
    decreases |b|
  {
    if a != [] && b != [] {
      if a[0] == b[0] {
        SubsequenceWithout(a[1..], b[1..], k);
      } else {
        SubsequenceWithout(a, b[1..], k);
        if b[0] != k {
          SubsequenceWeaken(Without(a, k), Without(b, k));
        }
      }
    }
  }

  lemma SubsequenceTouch<K>(a: seq<K>, b: seq<K>, k: K)
    requires Subsequence(a, b)
    ensures Subsequence(Touch(a, k), Touch(b, k))
    ensures k !in a ==> Subsequence(a, Touch(b, k)) && Subsequence(a + [k], Touch(b, k))
  {
    SubsequenceWithout(a, b, k);
    SubsequenceAppend(Without(a, k), Without(b, k), k);
    WithoutKeeps(a, k);
  }
}
