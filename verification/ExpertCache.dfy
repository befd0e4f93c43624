/**
 The LRU cache of parsed experts, with its per-layer index, and the inclusion
 property of least-recently-used eviction.
 */
module ExpertCache {
  import opened Collections
  import opened Recency

  datatype Key = Key(layer: nat, expert: nat)

  datatype Op<V> = Get(key: Key) | Put(key: Key, value: V) | Contains(key: Key) | Peek(key: Key)

  /** The cache as a value: keys from least to most recently used, their values, counters. */
  datatype Lru<V> = Lru(order: seq<Key>, data: map<Key, V>, hits: nat, misses: nat)

  ghost predicate WellFormed<V>(capacity: nat, s: Lru<V>) {
    && Distinct(s.order) && |s.order| <= capacity
    && forall k :: k in s.order <==> k in s.data
  }

  /** Where a store puts a key, and whom it evicts. */
  function PutOrder(capacity: nat, order: seq<Key>, k: Key): seq<Key> {
    if k in order then Touch(order, k)
    else if |order| >= capacity && order != [] then order[1..] + [k]
    else order + [k]
  }

  function Evicted(capacity: nat, order: seq<Key>, k: Key): set<Key> {
    if k !in order && |order| >= capacity && order != [] then {order[0]} else {}
  }

  function Step<V>(capacity: nat, s: Lru<V>, op: Op<V>): Lru<V> {
    match op
    case Get(k) =>
      if k in s.order then s.(order := Touch(s.order, k), hits := s.hits + 1) else s.(misses := s.misses + 1)
    case Put(k, v) =>
      s.(order := PutOrder(capacity, s.order, k), data := (s.data - Evicted(capacity, s.order, k))[k := v])
    case Contains(_) => s
    case Peek(_) => s
  }

  lemma PutOrderKeeps(capacity: nat, order: seq<Key>, k: Key)
    requires capacity >= 1 && Distinct(order) && |order| <= capacity
    ensures Distinct(PutOrder(capacity, order, k)) && |PutOrder(capacity, order, k)| <= capacity
    ensures forall x :: x in PutOrder(capacity, order, k)
                   <==> x == k || (x in order && x !in Evicted(capacity, order, k))
  {
    TouchKeeps(order, k);
    if k !in order && |order| >= capacity {
      DistinctTail(order);
      TouchKeeps(order[1..], k);
    }
  }

  /** The three cases of a store. */
  lemma PutCases<V>(capacity: nat, s: Lru<V>, k: Key, v: V)
    requires capacity >= 1
    ensures Step(capacity, s, Put(k, v))
         == if k in s.order then s.(order := Touch(s.order, k), data := s.data[k := v])
            else if |s.order| >= capacity then s.(order := s.order[1..] + [k], data := (s.data - {s.order[0]})[k := v])
            else s.(order := s.order + [k], data := s.data[k := v])
  {
    assert s.data - {} == s.data;
  }

  /** A store adds its entry and alters no other; nothing leaves while there is room. */
  lemma PutAdds<V>(capacity: nat, s: Lru<V>, k: Key, v: V)
    requires capacity >= 1 && WellFormed(capacity, s)
    ensures var after := Step(capacity, s, Put(k, v));
      && WellFormed(capacity, after) && |after.order| <= |s.order| + 1 && after.hits == s.hits && after.misses == s.misses
      && k in after.data && after.data[k] == v
      && (forall x :: x in after.data && x != k ==> x in s.data && after.data[x] == s.data[x])
      && (|s.order| < capacity ==> forall x :: x in s.data ==> x in after.data)
  {
    StepKeepsWellFormed(capacity, s, Put(k, v));
    PutCases(capacity, s, k, v);
    PutOrderKeeps(capacity, s.order, k);
    TouchKeeps(s.order, k);
  }

  lemma StepKeepsWellFormed<V>(capacity: nat, s: Lru<V>, op: Op<V>)
    requires capacity >= 1 && WellFormed(capacity, s)
    ensures WellFormed(capacity, Step(capacity, s, op))
  {
    match op {
      case Get(k) =>
        TouchKeeps(s.order, k);
      case Put(k, v) => PutOrderKeeps(capacity, s.order, k);
      case _ =>
    }
  }

  /** The smaller cache `s` holds part of what the larger `t` holds, in the same order,
      and all of it until it has filled up. */
  ghost predicate Included<V>(m: nat, n: nat, s: Lru<V>, t: Lru<V>) {
    && WellFormed(m, s) && WellFormed(n, t)
    && Subsequence(s.order, t.order)
    && (|s.order| < m ==> s.order == t.order)
    && (forall k :: k in s.data ==> k in t.data && s.data[k] == t.data[k])
    && s.hits <= t.hits && s.hits + s.misses == t.hits + t.misses
  }

  lemma StepKeepsInclusion<V>(m: nat, n: nat, s: Lru<V>, t: Lru<V>, op: Op<V>)
    requires 1 <= m <= n && Included(m, n, s, t)
    ensures Included(m, n, Step(m, s, op), Step(n, t, op))
  {
    SubsequenceKeys(s.order, t.order);
    StepKeepsWellFormed(m, s, op);
    StepKeepsWellFormed(n, t, op);
    match op {
      case Get(k) =>
        SubsequenceTouch(s.order, t.order, k);
        TouchKeeps(s.order, k);
      case Put(k, v) =>
        PutKeepsOrderInclusion(m, n, s.order, t.order, k);
        PutKeepsDataInclusion(m, n, s, t, k, v);
      case _ =>
    }
  }

  lemma PutKeepsDataInclusion<V>(m: nat, n: nat, s: Lru<V>, t: Lru<V>, k: Key, v: V)
    requires 1 <= m <= n && Included(m, n, s, t)
    ensures var s', t' := Step(m, s, Put(k, v)), Step(n, t, Put(k, v));
      forall x :: x in s'.data ==> x in t'.data && s'.data[x] == t'.data[x]
  {
    var s', t' := Step(m, s, Put(k, v)), Step(n, t, Put(k, v));
    PutKeepsOrderInclusion(m, n, s.order, t.order, k);
    StepKeepsWellFormed(m, s, Put(k, v));
    StepKeepsWellFormed(n, t, Put(k, v));
    SubsequenceKeys(s'.order, t'.order);
    forall x | x in s'.data
      ensures x in t'.data && s'.data[x] == t'.data[x]
    {
      assert x in s'.order && x in t'.order;
    }
  }

  lemma SubsequenceKeys(a: seq<Key>, b: seq<Key>)
    requires Subsequence(a, b)
    ensures forall x :: x in a ==> x in b
  {
    forall x | x in a
      ensures x in b
    {
      SubsequenceMembers(a, b, x);
    }
  }

  lemma PutKeepsOrderInclusion(m: nat, n: nat, a: seq<Key>, b: seq<Key>, k: Key)
    requires 1 <= m <= n && Distinct(a) && Distinct(b) && |a| <= m && |b| <= n
    requires Subsequence(a, b) && (|a| < m ==> a == b)
    ensures var a', b' := PutOrder(m, a, k), PutOrder(n, b, k);
      Subsequence(a', b') && (|a'| < m ==> a' == b')
  {
    TouchKeeps(a, k);
    if k in a {
      SubsequenceMembers(a, b, k);
      SubsequenceTouch(a, b, k);
    } else if |a| < m {
      SubsequenceAppend(a, b, k);
    } else {
      SubsequenceDrops(a, b);
      assert k !in a[1..];
      if k in b {
        SubsequenceTouch(a[1..], b, k);
      } else if |b| < n {
        SubsequenceAppend(a[1..], b, k);
      } else {
        SubsequenceAppend(a[1..], b[1..], k);
      }
    }
  }

  function Run<V>(capacity: nat, s: Lru<V>, ops: seq<Op<V>>): Lru<V>
    decreases |ops|
  {
    if ops == [] then s else Run(capacity, Step(capacity, s, ops[0]), ops[1..])
  }

  /** For every sequence of operations a smaller cache stays inside a larger one, so
      hits never decrease with capacity. */
  lemma {:induction false} RunKeepsInclusion<V>(m: nat, n: nat, s: Lru<V>, t: Lru<V>, ops: seq<Op<V>>)
    requires 1 <= m <= n && Included(m, n, s, t)
    ensures Included(m, n, Run(m, s, ops), Run(n, t, ops))
    decreases |ops|
  {
    if ops != [] {
      StepKeepsInclusion(m, n, s, t, ops[0]);
      RunKeepsInclusion(m, n, Step(m, s, ops[0]), Step(n, t, ops[0]), ops[1..]);
    }
  }

  lemma HitsGrowWithCapacity<V>(m: nat, n: nat, ops: seq<Op<V>>)
    requires 1 <= m <= n
    ensures var s, t := Run(m, Lru([], map[], 0, 0), ops), Run(n, Lru([], map[], 0, 0), ops);
      s.hits <= t.hits && s.data.Keys <= t.data.Keys
  {
    RunKeepsInclusion(m, n, Lru([], map[], 0, 0), Lru([], map[], 0, 0), ops);
  }

  /** The cache object. The capacity is positive: readers build no cache otherwise. */
  class LRUExpertCache<V> {
    const maxExperts: nat
    var order: seq<Key>
    var cache: map<Key, V>
    var hits: nat
    var misses: nat
    var byLayer: map<nat, set<nat>>

    ghost function Value(): Lru<V>
      reads this
    {
      Lru(order, cache, hits, misses)
    }

    /** The per-layer index mirrors the map exactly. */
    ghost predicate Indexed()
      reads this
    {
      forall l, e :: Key(l, e) in cache <==> l in byLayer && e in byLayer[l]
    }

    ghost predicate Valid()
      reads this
    {
      maxExperts >= 1 && WellFormed(maxExperts, Value()) && Indexed()
    }

    constructor (maxExperts: nat)
      requires maxExperts >= 1
      ensures Valid() && Value() == Lru([], map[], 0, 0) && this.maxExperts == maxExperts
    {
      this.maxExperts := maxExperts;
      order, cache, hits, misses, byLayer := [], map[], 0, 0, map[];
    }

    method Get(layer: nat, eid: nat) returns (found: Option<V>)
      requires Valid()
      modifies this
      ensures Valid() && Value() == Step(maxExperts, old(Value()), Op.Get(Key(layer, eid)))
      ensures found == if Key(layer, eid) in cache then Some(cache[Key(layer, eid)]) else None
      ensures cache == old(cache)
      ensures if Key(layer, eid) in cache then hits == old(hits) + 1 && misses == old(misses) && order == Without(old(order), Key(layer, eid)) + [Key(layer, eid)]
              else hits == old(hits) && misses == old(misses) + 1 && order == old(order)
    {
      StepKeepsWellFormed(maxExperts, Value(), Op.Get(Key(layer, eid)));
      var key := Key(layer, eid);
      if key in cache {
        hits := hits + 1;
        order := Touch(order, key);
        return Some(cache[key]);
      }
      misses := misses + 1;
      return None;
    }

    method Put(layer: nat, eid: nat, data: V)
      requires Valid()
      modifies this
      ensures Valid() && Value() == Step(maxExperts, old(Value()), Op.Put(Key(layer, eid), data))
      ensures Key(layer, eid) !in old(cache) && |old(order)| >= maxExperts ==>
                order == old(order)[1..] + [Key(layer, eid)] && cache.Keys == old(cache).Keys - {old(order)[0]} + {Key(layer, eid)}
      ensures Key(layer, eid) !in old(cache) && |old(order)| < maxExperts ==>
                order == old(order) + [Key(layer, eid)] && cache.Keys == old(cache).Keys + {Key(layer, eid)}
      ensures Key(layer, eid) in old(cache) ==>
                order == Without(old(order), Key(layer, eid)) + [Key(layer, eid)] && cache.Keys == old(cache).Keys
      ensures hits == old(hits) && misses == old(misses)
      ensures forall k :: k in cache ==> if k == Key(layer, eid) then cache[k] == data
                                         else k in old(cache) && cache[k] == old(cache)[k]
    {
      var key := Key(layer, eid);
      StepKeepsWellFormed(maxExperts, Value(), Op.Put(key, data));
      PutCases(maxExperts, Value(), key, data);
      if key in cache {
        order := Touch(order, key);
        cache := cache[key := data];
      } else {
        assert key !in order;
        MakeRoom();
        Append(layer, eid, data);
      }
    }

    /** Evict the least recently used entry of a full cache. */
    method MakeRoom()
      requires Valid()
      modifies this
      ensures Indexed() && hits == old(hits) && misses == old(misses)
      ensures if |old(order)| >= maxExperts then order == old(order)[1..] && cache == old(cache) - {old(order)[0]}
              else order == old(order) && cache == old(cache)
    {
      if |order| >= maxExperts {
        assert order[0] in order;
        EvictOldest();
      }
    }

    method Append(layer: nat, eid: nat, data: V)
      requires Indexed()
      modifies this
      ensures Indexed() && order == old(order) + [Key(layer, eid)] && cache == old(cache)[Key(layer, eid) := data]
      ensures hits == old(hits) && misses == old(misses)
    {
      cache := cache[Key(layer, eid) := data];
      order := order + [Key(layer, eid)];
      byLayer := byLayer[layer := (if layer in byLayer then byLayer[layer] else {}) + {eid}];
    }

    method EvictOldest()
      requires order != [] && Indexed() && order[0] in cache
      modifies this
      ensures Indexed() && order == old(order)[1..] && cache == old(cache) - {old(order)[0]}
      ensures hits == old(hits) && misses == old(misses)
    {
      var Key(l, e) := order[0];
      cache := cache - {order[0]};
      order := order[1..];
      byLayer := byLayer[l := byLayer[l] - {e}];
    }

    /** A probe: neither counters nor order change, as the missing `modifies` says. */
    method Contains(layer: nat, eid: nat) returns (yes: bool)
      requires Valid()
      ensures yes <==> Key(layer, eid) in cache
    {
      yes := Key(layer, eid) in cache;
    }

    method Peek(layer: nat, eid: nat) returns (found: Option<V>)
      requires Valid()
      ensures found == if Key(layer, eid) in cache then Some(cache[Key(layer, eid)]) else None
    {
      var key := Key(layer, eid);
      found := if key in cache then Some(cache[key]) else None;
    }

    method CachedIds(layer: nat) returns (ids: set<nat>)
      requires Valid()
      ensures forall e :: e in ids <==> Key(layer, e) in cache
    {
      ids := if layer in byLayer then byLayer[layer] else {};
    }
  }
}
