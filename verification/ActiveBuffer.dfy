/**
 The client of the byte-budget cache in the llama.cpp patch: it packs the slices of the
 experts a layer selected, in order, into one contiguous buffer.
 */
module ActiveBuffer {
  import opened Collections
  import opened Arithmetic
  import opened ByteCache

  /** Overwrite `src.Length` bytes of `dst`, from `at`. */
  method Memcpy(dst: array<bv8>, at: nat, src: Bytes)
    requires at + |src| <= dst.Length
    modifies dst
    ensures dst[..] == old(dst[..at]) + src + old(dst[at + |src|..])
  {
    for i := 0 to |src|
      invariant forall k :: 0 <= k < dst.Length ==>
        dst[k] == if at <= k < at + i then src[k - at] else old(dst[k])
    {
      dst[at + i] := src[i];
    }
  }

  /** The bytes of one expert inside a stacked tensor. */
  function Slice(stacked: Bytes, stride: nat, eid: nat): (r: Bytes)
    requires Mul(eid, stride) + stride <= |stacked|
    ensures |r| == stride
  {
    stacked[Mul(eid, stride)..Mul(eid, stride) + stride]
  }

  /** A buffer whose front holds `packed` and whose rest is as before. */
  function Overlay(packed: Bytes, before: Bytes): Bytes
    requires |packed| <= |before|
  {
    packed + before[|packed|..]
  }

  lemma OverlayExtends(packed: Bytes, before: Bytes, more: Bytes)
    requires |packed| + |more| <= |before|
    ensures var buffer := Overlay(packed, before);
      buffer[..|packed|] + more + buffer[|packed| + |more|..] == Overlay(packed + more, before)
  {
  }

  predicate Known(eid: int, experts: nat) {
    0 <= eid < experts
  }

  /** The slices of the known experts among the first `n` ids, one after another. */
  function Packed(stacked: Bytes, stride: nat, experts: nat, ids: seq<int>, n: nat): (r: Bytes)
    requires Mul(experts, stride) <= |stacked| && n <= |ids|
    ensures |r| <= Mul(n, stride)
  {
    if n == 0 then []
    else
      var before := Packed(stacked, stride, experts, ids, n - 1);
      if Known(ids[n - 1], experts) then
        SlotsDisjoint(ids[n - 1], experts, stride);
        before + Slice(stacked, stride, ids[n - 1])
      else before
  }

  function CountKnown(ids: seq<int>, experts: nat, n: nat): (c: nat)
    requires n <= |ids|
    ensures c <= n
  {
    if n == 0 then 0 else CountKnown(ids, experts, n - 1) + if Known(ids[n - 1], experts) then 1 else 0
  }

  /** Slot `c` of the buffer is the slice of the id with `c` known ids before it: unknown ids
      take no room and the rest keep their order. */
  lemma {:induction false} SlotHoldsItsExpert(stacked: Bytes, stride: nat, experts: nat, ids: seq<int>, n: nat, i: nat)
    requires Mul(experts, stride) <= |stacked| && i < n <= |ids| && 0 <= ids[i] < experts
    ensures Mul(ids[i], stride) + stride <= |stacked|
    ensures var at := Mul(CountKnown(ids, experts, i), stride); var all := Packed(stacked, stride, experts, ids, n);
      at + stride <= |all| && all[at..at + stride] == stacked[Mul(ids[i], stride)..Mul(ids[i], stride) + stride]
  {
    SlotsDisjoint(ids[i], experts, stride);
    if i < n - 1 {
      SlotHoldsItsExpert(stacked, stride, experts, ids, n - 1, i);
    } else {
      PackedLength(stacked, stride, experts, ids, i);
    }
  }

  lemma {:induction false} PackedLength(stacked: Bytes, stride: nat, experts: nat, ids: seq<int>, n: nat)
    requires Mul(experts, stride) <= |stacked| && n <= |ids|
    ensures |Packed(stacked, stride, experts, ids, n)| == Mul(CountKnown(ids, experts, n), stride)
  {
    if n > 0 {
      PackedLength(stacked, stride, experts, ids, n - 1);
      if Known(ids[n - 1], experts) {
        SlotsDisjoint(ids[n - 1], experts, stride);
      }
    }
  }

  class ExpertCacheContext {
    const cache: ExpertByteCache?
    const experts: nat
    const expertsUsed: nat
    const stacked: (int, int) -> Bytes    // layer and weight type to tensor data
    const stride: (int, int) -> nat       // 0 where there is no stacked tensor
    const active: array<bv8>

    /** Tensors hold all experts, strides are allocatable, and the buffer was sized for the
        widest layer. */
    ghost predicate Shaped() {
      && (forall l, w :: Mul(experts, stride(l, w)) <= |stacked(l, w)|)
      && (forall l, w :: stride(l, w) <= TWO_64 - ALLOC_ALIGNMENT)
      && (forall l, w :: Mul(expertsUsed, stride(l, w)) <= active.Length)
    }

    ghost predicate Valid()
      reads cache
    {
      && Shaped()
      && (cache != null ==> cache.Valid() && cache.Filled({}) && SameBytes(cache.slice))
    }

    /** A cache key stands for its slice of the tensor. */
    ghost predicate SameBytes(slice: Key -> Bytes)
      requires Shaped()
    {
      forall l, w, e: nat :: e < experts ==> (SlotsDisjoint(e, experts, stride(l, w));
        slice(Key(l, e, w)) == Slice(stacked(l, w), stride(l, w), e))
    }

    /** Requests the cache has answered, one way or the other. */
    function Lookups(): nat
      reads cache
    {
      if cache == null then 0 else cache.hits + cache.misses
    }

    ghost function Tensor(l: int, w: int, ids: seq<int>, n: nat): Bytes
      requires Shaped() && n <= |ids|
    {
      Packed(stacked(l, w), stride(l, w), experts, ids, n)
    }

    /** One expert's bytes through the cache, or nothing when it has no room. */
    method FromCache(key: Key, heap: bool, scrap: Bytes) returns (bytes: Option<Bytes>)
      requires Valid() && cache != null && |cache.slice(key)| <= TWO_64 - ALLOC_ALIGNMENT
      modifies cache
      ensures Valid()
      ensures bytes.Some? ==> bytes.value == cache.slice(key)
      ensures Lookups() == old(Lookups()) + 1
    {
      var width := |cache.slice(key)|;
      RequestKeepsValid(cache.State(), key, Entry(AlignUp(width), scrap), heap, cache.maxBytes);
      var found, hit := cache.GetOrAlloc(key, width, heap, scrap);
      if !found {
        return None;
      }
      if !hit {
        AlignUpIsLeast(width);
        cache.Fill(key);
      }
      return Some(cache.cache[key].data);
    }

    /** One expert's bytes: through the cache, or straight from the tensor when there is no
        cache or it has no room. */
    method Source(layer: int, weightType: int, eid: nat, heap: bool, scrap: Bytes) returns (bytes: Bytes)
      requires Valid() && eid < experts
      modifies cache
      ensures Valid()
      ensures Mul(eid, stride(layer, weightType)) + stride(layer, weightType) <= |stacked(layer, weightType)|
      ensures bytes == Slice(stacked(layer, weightType), stride(layer, weightType), eid)
      ensures cache != null ==> Lookups() == old(Lookups()) + 1
    {
      SlotsDisjoint(eid, experts, stride(layer, weightType));
      if cache != null {
        var cached := FromCache(Key(layer, eid, weightType), heap, scrap);
        if cached.Some? {
          return cached.value;
        }
      }
      return Slice(stacked(layer, weightType), stride(layer, weightType), eid);
    }

    /** One round of the packing loop. */
    method PackOne(layer: int, weightType: int, ids: seq<int>, i: nat, at: nat, heap: bool, scrap: Bytes, ghost before: Bytes)
      returns (next: nat)
      requires Valid() && i < |ids| <= expertsUsed && Known(ids[i], experts)
      requires at == |Tensor(layer, weightType, ids, i)| <= active.Length == |before|
      requires active[..] == Overlay(Tensor(layer, weightType, ids, i), before)
      modifies active, cache
      ensures Valid()
      ensures next == |Tensor(layer, weightType, ids, i + 1)| <= active.Length
      ensures active[..] == Overlay(Tensor(layer, weightType, ids, i + 1), before)
      ensures cache != null ==> Lookups() == old(Lookups()) + 1
    {
      ghost var packed := Tensor(layer, weightType, ids, i);
      var bytes := Source(layer, weightType, ids[i], heap, scrap);
      assert Tensor(layer, weightType, ids, i + 1) == packed + bytes;
      SlotsMonotone(i + 1, expertsUsed, stride(layer, weightType));
      OverlayExtends(packed, before, bytes);
      Memcpy(active, at, bytes);
      next := at + |bytes|;
    }

    /** Pack the selected experts. `heap` says which of the requests the allocator serves,
        `scrap` what fresh memory holds: neither shows in the result. */
    method BuildActiveBuffer(layer: int, weightType: int, ids: seq<int>, heap: nat -> bool, scrap: nat -> Bytes)
      returns (built: bool)
      requires Valid() && |ids| <= expertsUsed
      modifies active, cache
      ensures Valid()
      ensures built <==> stride(layer, weightType) != 0
      ensures built ==> |Tensor(layer, weightType, ids, |ids|)| <= active.Length
      ensures built ==> active[..] == Overlay(Tensor(layer, weightType, ids, |ids|), old(active[..]))
      ensures !built ==> active[..] == old(active[..])
      ensures built && cache != null ==> Lookups() == old(Lookups()) + CountKnown(ids, experts, |ids|)
    {
      var width := stride(layer, weightType);
      if width == 0 {
        return false;
      }
      ghost var before := active[..];
      var at := 0;
      for i := 0 to |ids|
        invariant Valid()
        invariant at == |Tensor(layer, weightType, ids, i)| <= active.Length
        invariant active[..] == Overlay(Tensor(layer, weightType, ids, i), before)
        invariant cache != null ==> Lookups() == old(Lookups()) + CountKnown(ids, experts, i)
      {
        if Known(ids[i], experts) {
          at := PackOne(layer, weightType, ids, i, at, heap(i), scrap(i), before);
        }
      }
      return true;
    }
  }
}
