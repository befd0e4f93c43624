/**
 The byte-budget LRU cache of the llama.cpp patch: a recency list, a map of entries and
 a running byte count; and its client, which packs the active experts into one buffer.
 */
module ByteCache {
  import opened Collections
  import opened Recency

  const TWO_64: int := 0x1_0000_0000_0000_0000
  const ALLOC_ALIGNMENT: nat := 4096

  /** Round up to a multiple of 4096 in 64-bit arithmetic: add, then clear the low bits. */
  function AlignUp(val: nat): nat {
    var s := (val + ALLOC_ALIGNMENT - 1) % TWO_64;
    s - s % ALLOC_ALIGNMENT
  }

  ghost predicate Multiple(m: nat) {
    m % ALLOC_ALIGNMENT == 0
  }

  /** `up` is the least 4096-multiple not below `val`. */
  ghost predicate LeastMultiple(val: nat, up: nat) {
    Multiple(up) && val <= up && forall m: nat :: Multiple(m) && val <= m ==> up <= m
  }

  /** That is what rounding up returns, unless the addition wraps around. */
  lemma AlignUpIsLeast(val: nat)
    requires val < TWO_64
    ensures LeastMultiple(val, AlignUp(val)) <==> val <= TWO_64 - ALLOC_ALIGNMENT
  {
    if val <= TWO_64 - ALLOC_ALIGNMENT {
      forall m: nat | Multiple(m) && val <= m
        ensures AlignUp(val) <= m
      {
      }
    }
  }

  datatype Key = Key(layer: int, expert: int, weightType: int)

  type Bytes = seq<bv8>

  /** A slab: its aligned size and the bytes it starts with. */
  datatype Entry = Entry(size: nat, data: Bytes)

  /** Bytes held by the entries of `order`. */
  function SizeOf(order: seq<Key>, cache: map<Key, Entry>): (n: nat)
    requires forall k :: k in order ==> k in cache
  {
    if order == [] then 0
    else
      var n := |order| - 1;
      SizeOf(order[..n], cache) + cache[order[n]].size
  }

  lemma {:induction false} SizeOfSame(order: seq<Key>, cache: map<Key, Entry>, cache': map<Key, Entry>)
    requires forall k :: k in order ==> k in cache && k in cache' && cache[k].size == cache'[k].size
    ensures SizeOf(order, cache) == SizeOf(order, cache')
  {
    if order != [] {
      SizeOfSame(order[..|order| - 1], cache, cache');
    }
  }

  lemma {:induction false} SizeOfConcat(a: seq<Key>, b: seq<Key>, cache: map<Key, Entry>)
    requires forall k :: k in a + b ==> k in cache
    ensures (forall k :: k in a ==> k in cache) && (forall k :: k in b ==> k in cache)
    ensures SizeOf(a + b, cache) == SizeOf(a, cache) + SizeOf(b, cache)
  {
    assert forall k :: k in a || k in b ==> k in a + b;
    if b == [] {
      assert a + b == a;
    } else {
      var n := |b| - 1;
      assert (a + b)[..|a + b| - 1] == a + b[..n];
      SizeOfConcat(a, b[..n], cache);
    }
  }

  /** The first `j` entries and `needed` more bytes fit the budget. */
  ghost predicate Fits(order: seq<Key>, cache: map<Key, Entry>, j: nat, needed: nat, maxBytes: nat)
    requires j <= |order| && forall k :: k in order ==> k in cache
  {
    SizeOf(order[..j], cache) + needed <= maxBytes
  }

  /** Keeping fewer entries never takes more room, so the first count that fits from the
      back is the longest prefix that does. */
  lemma {:induction false} FitsShorter(order: seq<Key>, cache: map<Key, Entry>, i: nat, j: nat, needed: nat, maxBytes: nat)
    requires i <= j <= |order| && forall k :: k in order ==> k in cache
    requires Fits(order, cache, j, needed, maxBytes)
    ensures Fits(order, cache, i, needed, maxBytes)
    decreases j - i
  {
    if i < j {
      assert order[..j][..j - 1] == order[..j - 1];
      FitsShorter(order, cache, i, j - 1, needed, maxBytes);
    }
  }

  /** The eviction rule: keep the longest prefix of the recency list that leaves room, or
      nothing when not even the newest entry can stay. */
  ghost predicate KeepsLongestPrefix(order: seq<Key>, cache: map<Key, Entry>, j: nat, needed: nat, maxBytes: nat)
    requires forall k :: k in order ==> k in cache
  {
    && j <= |order|
    && (j == 0 || Fits(order, cache, j, needed, maxBytes))
    && forall i :: j < i <= |order| ==> !Fits(order, cache, i, needed, maxBytes)
  }

  /** List, map and byte count, as a value. */
  datatype Slabs = Slabs(order: seq<Key>, cache: map<Key, Entry>, used: nat)

  /** The three agree: a duplicate-free list of exactly the keys, and the sum of sizes. */
  ghost predicate Consistent(s: Slabs) {
    && Distinct(s.order) && (forall k :: k in s.order <==> k in s.cache)
    && s.used == SizeOf(s.order, s.cache)
  }

  /** The budget is exceeded only by a single entry that is larger than all of it. */
  ghost predicate WithinBudget(s: Slabs, maxBytes: nat) {
    s.used <= maxBytes || |s.order| == 1
  }

  /** The comparison the code makes, in 64-bit arithmetic. */
  predicate OverBudget(used: nat, needed: nat, maxBytes: nat) {
    (used + needed) % TWO_64 > maxBytes
  }

  function DropOldest(s: Slabs): Slabs
    requires s.order != []
  {
    var n := |s.order| - 1;
    var key := s.order[n];
    Slabs(s.order[..n], s.cache - {key}, if key in s.cache && s.cache[key].size <= s.used then s.used - s.cache[key].size else s.used)
  }

  function Evicted(s: Slabs, needed: nat, maxBytes: nat): Slabs
    decreases |s.order|
  {
    if OverBudget(s.used, needed, maxBytes) && s.order != [] then Evicted(DropOldest(s), needed, maxBytes) else s
  }

  function Front(s: Slabs, key: Key): Slabs {
    s.(order := [key] + Without(s.order, key))
  }

  function Inserted(s: Slabs, key: Key, entry: Entry): Slabs {
    Slabs([key] + s.order, s.cache[key := entry], s.used + entry.size)
  }

  lemma DropKeepsConsistent(s: Slabs)
    requires Consistent(s) && s.order != []
    ensures var t := DropOldest(s);
      Consistent(t) && t.used == SizeOf(s.order[..|s.order| - 1], s.cache) <= s.used
  {
    var n := |s.order| - 1;
    var key := s.order[n];
    assert s.order == s.order[..n] + [key] && key in s.order;
    SizeOfSame(s.order[..n], s.cache, s.cache - {key});
  }

  /** `t` is a prefix of the recency list of `s` with its entries and their size. */
  ghost predicate KeptFrom(s: Slabs, t: Slabs)
    requires Consistent(s)
  {
    && Consistent(t) && |t.order| <= |s.order| && t.order == s.order[..|t.order|]
    && (forall k :: k in t.cache ==> k in s.cache && t.cache[k] == s.cache[k])
    && t.used == SizeOf(s.order[..|t.order|], s.cache) <= s.used
  }

  /** A prefix that survives the drop has the same size before and after. */
  lemma InsideFront(s: Slabs, j: nat)
    requires Consistent(s) && j < |s.order|
    ensures var d := DropOldest(s);
      (forall k :: k in d.order[..j] ==> k in d.cache) && SizeOf(d.order[..j], d.cache) == SizeOf(s.order[..j], s.cache)
  {
    var d := DropOldest(s);
    DropKeepsConsistent(s);
    assert d.order[..j] == s.order[..j];
    forall k | k in d.order[..j]
      ensures k in d.order
    {
    }
    SizeOfSame(d.order[..j], d.cache, s.cache);
  }

  lemma KeptFromDropped(s: Slabs, t: Slabs)
    requires Consistent(s) && s.order != [] && Consistent(DropOldest(s)) && KeptFrom(DropOldest(s), t)
    ensures KeptFrom(s, t)
  {
    DropKeepsConsistent(s);
    assert DropOldest(s).order[..|t.order|] == s.order[..|t.order|];
    InsideFront(s, |t.order|);
  }

  /** Eviction leaves a prefix of the recency list with its entries. */
  lemma {:induction false} EvictionKeepsPrefix(s: Slabs, needed: nat, maxBytes: nat)
    requires Consistent(s)
    ensures var t := Evicted(s, needed, maxBytes);
      KeptFrom(s, t) && (!OverBudget(t.used, needed, maxBytes) || t.order == [])
    decreases |s.order|
  {
    if OverBudget(s.used, needed, maxBytes) && s.order != [] {
      DropKeepsConsistent(s);
      EvictionKeepsPrefix(DropOldest(s), needed, maxBytes);
      KeptFromDropped(s, Evicted(DropOldest(s), needed, maxBytes));
    } else {
      assert s.order[..|s.order|] == s.order;
    }
  }

  /** A prefix that was evicted would not have fitted. */
  lemma {:induction false} NothingLongerFits(s: Slabs, needed: nat, maxBytes: nat, i: nat)
    requires Consistent(s) && s.used + needed < TWO_64
    requires |Evicted(s, needed, maxBytes).order| < i <= |s.order|
    ensures !Fits(s.order, s.cache, i, needed, maxBytes)
    decreases |s.order|
  {
    if i == |s.order| {
      assert s.order[..i] == s.order;
    } else {
      DropKeepsConsistent(s);
      NothingLongerFits(DropOldest(s), needed, maxBytes, i);
      InsideFront(s, i);
    }
  }

  /** While the byte count does not wrap around, eviction follows the rule exactly. */
  lemma EvictionKeepsLongestPrefix(s: Slabs, needed: nat, maxBytes: nat)
    requires Consistent(s) && s.used + needed < TWO_64
    ensures KeepsLongestPrefix(s.order, s.cache, |Evicted(s, needed, maxBytes).order|, needed, maxBytes)
  {
    EvictionKeepsPrefix(s, needed, maxBytes);
    forall i | |Evicted(s, needed, maxBytes).order| < i <= |s.order|
      ensures !Fits(s.order, s.cache, i, needed, maxBytes)
    {
      NothingLongerFits(s, needed, maxBytes, i);
    }
  }

  lemma FrontKeepsValid(s: Slabs, key: Key, maxBytes: nat)
    requires Consistent(s) && WithinBudget(s, maxBytes) && key in s.cache
    ensures Consistent(Front(s, key)) && WithinBudget(Front(s, key), maxBytes)
  {
    WithoutKeeps(s.order, key);
    FrontSize(s.order, s.cache, key);
  }

  /** A miss: make room, then insert unless the allocator refuses. It cannot deliver beyond
      the address space. */
  function Admitted(s: Slabs, key: Key, entry: Entry, heap: bool, maxBytes: nat): Slabs {
    var room := Evicted(s, entry.size, maxBytes);
    if heap && room.used + entry.size < TWO_64 then Inserted(room, key, entry) else room
  }

  /** One request: a hit moves to the front, a miss is admitted. */
  function Requested(s: Slabs, key: Key, entry: Entry, heap: bool, maxBytes: nat): Slabs {
    if key in s.cache then Front(s, key) else Admitted(s, key, entry, heap, maxBytes)
  }

  /** A request keeps list, map and count in agreement and within the budget; it invents no
      slab and alters none but the requested one. */
  lemma RequestKeepsValid(s: Slabs, key: Key, entry: Entry, heap: bool, maxBytes: nat)
    requires Consistent(s) && WithinBudget(s, maxBytes) && maxBytes < TWO_64
    ensures var t := Requested(s, key, entry, heap, maxBytes);
      && Consistent(t) && WithinBudget(t, maxBytes)
      && (forall k :: k in t.cache && (k != key || key in s.cache) ==> k in s.cache && t.cache[k] == s.cache[k])
      && (key in t.cache && key !in s.cache ==> t.cache[key] == entry)
      && (key in t.cache ==> t.order[..1] == [key])
  {
    if key in s.cache {
      FrontKeepsValid(s, key, maxBytes);
    } else {
      EvictionKeepsPrefix(s, entry.size, maxBytes);
      InsertKeepsConsistent(Evicted(s, entry.size, maxBytes), key, entry);
    }
  }

  lemma InsertKeepsConsistent(s: Slabs, key: Key, entry: Entry)
    requires Consistent(s) && key !in s.cache
    ensures Consistent(Inserted(s, key, entry))
  {
    var cache' := s.cache[key := entry];
    SizeOfSame(s.order, s.cache, cache');
    SizeOfConcat([key], s.order, cache');
  }

  class ExpertByteCache {
    const maxBytes: nat
    const slice: Key -> Bytes     // the bytes an expert has on disk
    var order: seq<Key>           // most recently used first
    var cache: map<Key, Entry>
    var used: nat
    var hits: nat
    var misses: nat
    var evictions: nat

    ghost function State(): Slabs
      reads this
    {
      Slabs(order, cache, used)
    }

    ghost predicate Valid()
      reads this
    {
      maxBytes < TWO_64 && Consistent(State()) && WithinBudget(State(), maxBytes)
    }

    /** Every slab holds the bytes of its expert, but for `except`, which may be unfilled. */
    ghost predicate Filled(except: set<Key>)
      reads this
    {
      forall k :: k in cache && k !in except ==> cache[k].data == slice(k)
    }

    constructor (maxBytes: nat, slice: Key -> Bytes)
      requires maxBytes < TWO_64
      ensures Valid() && Filled({}) && State() == Slabs([], map[], 0)
      ensures this.maxBytes == maxBytes && this.slice == slice && hits == misses == evictions == 0
    {
      this.maxBytes, this.slice := maxBytes, slice;
      used, order, cache, hits, misses, evictions := 0, [], map[], 0, 0, 0;
    }

    /** Evict from the back until `needed` bytes fit or nothing is left. */
    method EvictUntilFree(needed: nat)
      requires Consistent(State())
      modifies this`used, this`order, this`cache, this`evictions
      ensures State() == Evicted(old(State()), needed, maxBytes)
      ensures evictions + |order| == old(evictions) + |old(order)|
    {
      while OverBudget(used, needed, maxBytes) && order != []
        invariant Consistent(State())
        invariant Evicted(State(), needed, maxBytes) == Evicted(old(State()), needed, maxBytes)
        invariant evictions + |order| == old(evictions) + |old(order)|
        decreases |order|
      {
        DropKeepsConsistent(State());
        var n := |order| - 1;
        var key := order[n];
        LastIsCounted(State());
        order := order[..n];
        used := used - cache[key].size;
        cache := cache - {key};
        evictions := evictions + 1;
      }
    }

    /** Look a key up, or make room and insert a slab of `size` bytes for it. `heap` says
        whether the allocator delivers, `content` is what a fresh slab holds. */
    method GetOrAlloc(key: Key, size: nat, heap: bool, content: Bytes) returns (found: bool, hit: bool)
      requires Valid()
      modifies this
      ensures Valid()
      ensures State() == Requested(old(State()), key, Entry(AlignUp(size), content), heap, maxBytes)
      ensures hit <==> key in old(cache)
      ensures found <==> key in cache
      ensures hits == old(hits) + (if hit then 1 else 0) && misses == old(misses) + (if hit then 0 else 1)
    {
      var aligned := AlignUp(size);
      RequestKeepsValid(State(), key, Entry(aligned, content), heap, maxBytes);
      if key in cache {
        hits := hits + 1;
        order := [key] + Without(order, key);
        return true, true;
      }
      misses := misses + 1;
      EvictionKeepsPrefix(State(), aligned, maxBytes);
      EvictUntilFree(aligned);
      if !heap || used + aligned >= TWO_64 {
        return false, false;
      }
      order := [key] + order;
      cache := cache[key := Entry(aligned, content)];
      used := used + aligned;
      return true, false;
    }

    /** Copy an expert into its slab. */
    method Fill(key: Key)
      requires Valid() && key in cache && |slice(key)| <= cache[key].size && Filled({key})
      modifies this`cache
      ensures Valid() && Filled({})
      ensures cache == old(cache)[key := old(cache)[key].(data := slice(key))]
    {
      SizeOfSame(order, cache, cache[key := cache[key].(data := slice(key))]);
      cache := cache[key := cache[key].(data := slice(key))];
    }

    /** `ensure`: the same request, with the bytes read from disk before the slab is
        inserted. A failed read counts as a refusal. */
    method Ensure(key: Key, size: nat, heap: bool) returns (found: bool)
      requires Valid() && Filled({})
      modifies this
      ensures Valid() && Filled({})
      ensures State() == Requested(old(State()), key, Entry(AlignUp(size), slice(key)), heap, maxBytes)
      ensures found <==> key in cache
      ensures found ==> cache[key].data == slice(key) && order[..1] == [key]
    {
      RequestKeepsValid(State(), key, Entry(AlignUp(size), slice(key)), heap, maxBytes);
      var hit;
      found, hit := GetOrAlloc(key, size, heap, slice(key));
    }

    method Touch(key: Key)
      requires Valid()
      modifies this`order
      ensures Valid()
      ensures State() == if key in cache then Front(old(State()), key) else old(State())
    {
      if key in cache {
        FrontKeepsValid(State(), key, maxBytes);
        order := [key] + Without(order, key);
      }
    }
  }

  lemma LastIsCounted(s: Slabs)
    requires Consistent(s) && s.order != []
    ensures var key := s.order[|s.order| - 1]; key in s.cache && s.cache[key].size <= s.used
  {
    assert s.order[|s.order| - 1] in s.order;
  }

  lemma {:induction false} FrontSize(order: seq<Key>, cache: map<Key, Entry>, key: Key)
    requires Distinct(order) && key in order && forall k :: k in order ==> k in cache
    ensures forall k :: k in [key] + Without(order, key) ==> k in cache
    ensures SizeOf([key] + Without(order, key), cache) == SizeOf(order, cache)
  {
    WithoutKeeps(order, key);
    var rest := order[1..];
    assert order == [order[0]] + rest;
    SizeOfConcat([order[0]], rest, cache);
    SizeOfConcat([key], Without(order, key), cache);
    if order[0] == key {
      WithoutKeeps(rest, key);
      assert key !in rest;
    } else {
      FrontSize(rest, cache, key);
      WithoutKeeps(rest, key);
      SizeOfConcat([key], Without(rest, key), cache);
      SizeOfConcat([order[0]], Without(rest, key), cache);
    }
  }
}
