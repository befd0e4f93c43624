/**
 The page-aligned expert block format: one header page, then one block of fixed size per
 expert. One writer streams stacked tensors to a layer file, another assembles single
 blocks from byte ranges of a remote checkpoint; the loader cuts a block back into tensors.
 */
module BlockFormat {
  import opened Collections
  import opened Arithmetic

  const PAGE: nat := 16384

  type Bytes = seq<bv8>

  /** A tensor stacked over experts: `per` bytes for each. */
  datatype Stacked = Stacked(per: nat, data: Bytes)

  ghost predicate Holds(tensors: seq<Stacked>, experts: nat) {
    forall t :: 0 <= t < |tensors| ==> |tensors[t].data| == Mul(experts, tensors[t].per)
  }

  /** The bytes of one expert in one tensor. */
  function Slice(t: Stacked, experts: nat, eid: nat): (r: Bytes)
    requires |t.data| == Mul(experts, t.per) && eid < experts
    ensures |r| == t.per
  {
    SlotsDisjoint(eid, experts, t.per);
    t.data[Mul(eid, t.per)..Mul(eid, t.per) + t.per]
  }

  /** `r` is the `eid`-th group of `per` bytes. */
  ghost predicate IsSlice(r: Bytes, t: Stacked, eid: nat) {
    Mul(eid, t.per) + t.per <= |t.data| && r == t.data[Mul(eid, t.per)..Mul(eid, t.per) + t.per]
  }

  /** Bytes an expert takes in the first `n` tensors. */
  function Payload(tensors: seq<Stacked>, n: nat): nat
    requires n <= |tensors|
  {
    if n == 0 then 0 else Payload(tensors, n - 1) + tensors[n - 1].per
  }

  function Pieces(tensors: seq<Stacked>, experts: nat, eid: nat, n: nat): (r: Bytes)
    requires Holds(tensors, experts) && eid < experts && n <= |tensors|
    ensures |r| == Payload(tensors, n)
  {
    if n == 0 then [] else Pieces(tensors, experts, eid, n - 1) + Slice(tensors[n - 1], experts, eid)
  }

  function Zeros(n: nat): (r: Bytes)
    ensures |r| == n
  {
    seq(n, _ => 0)
  }

  /** Round up to whole pages. */
  function Padded(n: nat): nat {
    (n + PAGE - 1) / PAGE * PAGE
  }

  /** The padding is the least that reaches a page boundary. */
  lemma PaddingIsMinimal(n: nat, m: nat)
    ensures Padded(n) % PAGE == 0 && n <= Padded(n) < n + PAGE
    ensures m % PAGE == 0 && n <= m ==> Padded(n) <= m
  {
  }

  function BlockSize(tensors: seq<Stacked>): nat {
    Padded(Payload(tensors, |tensors|))
  }

  /** What the block of an expert is: its slice of every tensor in order, then zeros. */
  function Block(tensors: seq<Stacked>, experts: nat, eid: nat): (r: Bytes)
    requires Holds(tensors, experts) && eid < experts
    ensures |r| == BlockSize(tensors)
  {
    Pieces(tensors, experts, eid, |tensors|) + Zeros(BlockSize(tensors) - Payload(tensors, |tensors|))
  }

  datatype Place = Place(inner: nat, nbytes: nat)

  ghost predicate Lays(tensors: seq<Stacked>, layout: seq<Place>, n: nat) {
    n <= |tensors| && |layout| == n && forall t :: 0 <= t < n ==> layout[t] == Place(Payload(tensors, t), tensors[t].per)
  }

  /** The layout both writers put into the header. */
  method ExpertLayout(tensors: seq<Stacked>) returns (layout: seq<Place>, blockSize: nat)
    ensures Lays(tensors, layout, |tensors|) && blockSize == BlockSize(tensors)
  {
    var offset := 0;
    layout := [];
    for t := 0 to |tensors|
      invariant offset == Payload(tensors, t) && Lays(tensors, layout, t)
    {
      layout := layout + [Place(offset, tensors[t].per)];
      offset := offset + tensors[t].per;
    }
    blockSize := (offset + PAGE - 1) / PAGE * PAGE;
  }

  lemma {:induction false} PayloadGrows(tensors: seq<Stacked>, m: nat, n: nat)
    requires m <= n <= |tensors|
    ensures Payload(tensors, m) <= Payload(tensors, n)
    ensures m < n ==> Payload(tensors, m) + tensors[m].per <= Payload(tensors, n)
  {
    if m < n {
      PayloadGrows(tensors, m, n - 1);
    }
  }

  /** The places fill the payload without gaps or overlaps. */
  lemma LayoutIsContiguous(tensors: seq<Stacked>, layout: seq<Place>, m: nat, n: nat)
    requires Lays(tensors, layout, |tensors|) && m < n < |tensors|
    ensures layout[m].inner + layout[m].nbytes <= layout[n].inner
    ensures n == m + 1 ==> layout[m].inner + layout[m].nbytes == layout[n].inner
    ensures layout[0].inner == 0 && layout[n].inner + layout[n].nbytes <= BlockSize(tensors)
  {
    assert layout[0] == Place(Payload(tensors, 0), tensors[0].per);
    assert layout[m] == Place(Payload(tensors, m), tensors[m].per);
    assert layout[n] == Place(Payload(tensors, n), tensors[n].per);
    PayloadGrows(tensors, m, n);
    PayloadGrows(tensors, n, |tensors|);
    BlockHoldsPayload(tensors);
  }

  lemma BlockHoldsPayload(tensors: seq<Stacked>)
    ensures Payload(tensors, |tensors|) <= BlockSize(tensors)
  {
    PaddingIsMinimal(Payload(tensors, |tensors|), 0);
  }

  /** Cut a block into tensors by the layout. */
  function ParseExpertBlock(raw: Bytes, layout: seq<Place>): seq<Bytes>
    requires forall t :: 0 <= t < |layout| ==> layout[t].inner + layout[t].nbytes <= |raw|
  {
    seq(|layout|, t requires 0 <= t < |layout| => raw[layout[t].inner..layout[t].inner + layout[t].nbytes])
  }

  lemma {:induction false} PieceInPlace(tensors: seq<Stacked>, experts: nat, eid: nat, n: nat, t: nat)
    requires Holds(tensors, experts) && eid < experts && t < n <= |tensors|
    ensures Payload(tensors, t) + tensors[t].per <= Payload(tensors, n)
    ensures Pieces(tensors, experts, eid, n)[Payload(tensors, t)..Payload(tensors, t) + tensors[t].per]
            == Slice(tensors[t], experts, eid)
  {
    PayloadGrows(tensors, t, n);
    if t < n - 1 {
      PayloadGrows(tensors, t, n - 1);
      PieceInPlace(tensors, experts, eid, n - 1, t);
    }
  }

  /** Parsing a block gives back the expert's slice of every tensor. */
  lemma ParseRecovers(tensors: seq<Stacked>, experts: nat, eid: nat, layout: seq<Place>)
    requires Holds(tensors, experts) && eid < experts && Lays(tensors, layout, |tensors|)
    ensures forall t :: 0 <= t < |layout| ==> layout[t].inner + layout[t].nbytes <= BlockSize(tensors)
    ensures var parts := ParseExpertBlock(Block(tensors, experts, eid), layout);
      |parts| == |tensors| && forall t :: 0 <= t < |tensors| ==> parts[t] == Slice(tensors[t], experts, eid)
    ensures forall t :: 0 <= t < |tensors| ==> IsSlice(Slice(tensors[t], experts, eid), tensors[t], eid)
  {
    forall t | 0 <= t < |tensors|
      ensures IsSlice(Slice(tensors[t], experts, eid), tensors[t], eid)
    {
      SlotsDisjoint(eid, experts, tensors[t].per);
    }
    var n := |tensors|;
    var pieces, block := Pieces(tensors, experts, eid, n), Block(tensors, experts, eid);
    forall t | 0 <= t < n
      ensures layout[t].inner + layout[t].nbytes <= BlockSize(tensors)
      ensures block[layout[t].inner..layout[t].inner + layout[t].nbytes] == Slice(tensors[t], experts, eid)
    {
      PieceInPlace(tensors, experts, eid, n, t);
      assert block[..|pieces|] == pieces;
      SliceOfSlice(block, 0, |pieces|, layout[t].inner, layout[t].nbytes);
    }
  }

  /** The first `n` blocks of a layer. */
  function Blocks(tensors: seq<Stacked>, experts: nat, n: nat): (r: Bytes)
    requires Holds(tensors, experts) && n <= experts
    ensures |r| == Mul(n, BlockSize(tensors))
  {
    if n == 0 then [] else Blocks(tensors, experts, n - 1) + Block(tensors, experts, n - 1)
  }

  /** The header, padded to a page; a longer one is not cut. */
  function HeaderPage(header: Bytes): Bytes {
    header + Zeros(if |header| < PAGE then PAGE - |header| else 0)
  }

  /** Append one expert's data and padding. */
  method AssembleBlock(tensors: seq<Stacked>, experts: nat, eid: nat, blockSize: nat) returns (block: Bytes)
    requires Holds(tensors, experts) && eid < experts && blockSize == BlockSize(tensors)
    ensures block == Block(tensors, experts, eid)
  {
    block := [];
    for t := 0 to |tensors|
      invariant block == Pieces(tensors, experts, eid, t)
    {
      block := block + Slice(tensors[t], experts, eid);
    }
    var pad := blockSize - |block|;
    if pad > 0 {
      block := block + Zeros(pad);
    }
  }

  /** What a read of `n` bytes from `at` returns; less at the end of the file. */
  function Pread(file: Bytes, at: nat, n: nat): Bytes {
    var from, to := if at < |file| then at else |file|, if at + n < |file| then at + n else |file|;
    file[from..to]
  }

  /** The expert's bytes are where its readers look for them. */
  predicate ReadsBack(file: Bytes, tensors: seq<Stacked>, experts: nat, eid: nat)
    requires Holds(tensors, experts) && eid < experts
  {
    var expected := Pieces(tensors, experts, eid, |tensors|);
    var onDisk := Pread(file, PAGE + Mul(eid, BlockSize(tensors)), BlockSize(tensors));
    (if |expected| <= |onDisk| then onDisk[..|expected|] else onDisk) == expected
  }

  ghost predicate AllReadBack(file: Bytes, tensors: seq<Stacked>, experts: nat, sample: seq<nat>)
    requires Holds(tensors, experts) && forall i :: 0 <= i < |sample| ==> sample[i] < experts
  {
    forall i :: 0 <= i < |sample| ==> ReadsBack(file, tensors, experts, sample[i])
  }

  /** Write a layer file, unless one of the expected size is already there, and read some experts
      of a new file back. Nothing is returned when one of them differs. */
  method WriteLayer(existing: Option<Bytes>, header: Bytes, tensors: seq<Stacked>, experts: nat, sample: seq<nat>)
    returns (file: Bytes, written: Option<nat>)
    requires Holds(tensors, experts) && forall i :: 0 <= i < |sample| ==> sample[i] < experts
    ensures var expected := PAGE + Mul(experts, BlockSize(tensors));
      if existing.Some? && |existing.value| == expected then file == existing.value && written == Some(0)
      else
        && file == HeaderPage(header) + Blocks(tensors, experts, experts)
        && written == if AllReadBack(file, tensors, experts, sample) then Some(expected) else None
    ensures |header| <= PAGE ==> written.Some?
  {
    var _, blockSize := ExpertLayout(tensors);
    if existing.Some? && |existing.value| == PAGE + Mul(experts, blockSize) {
      return existing.value, Some(0);
    }
    var n;
    file, n := WriteFile(header, tensors, experts, blockSize);
    var ok := Verify(file, tensors, experts, sample);
    if |header| <= PAGE {
      forall i | 0 <= i < |sample|
        ensures ReadsBack(file, tensors, experts, sample[i])
      {
        WrittenReadsBack(header, tensors, experts, sample[i]);
      }
    }
    written := if ok then Some(n) else None;
  }

  method Verify(file: Bytes, tensors: seq<Stacked>, experts: nat, sample: seq<nat>) returns (ok: bool)
    requires Holds(tensors, experts) && forall i :: 0 <= i < |sample| ==> sample[i] < experts
    ensures ok <==> AllReadBack(file, tensors, experts, sample)
  {
    for i := 0 to |sample|
      invariant AllReadBack(file, tensors, experts, sample[..i])
    {
      OneMoreReadsBack(file, tensors, experts, sample, i);
      if !ReadsBack(file, tensors, experts, sample[i]) {
        return false;
      }
    }
    assert sample[..|sample|] == sample;
    return true;
  }

  lemma OneMoreReadsBack(file: Bytes, tensors: seq<Stacked>, experts: nat, sample: seq<nat>, n: nat)
    requires Holds(tensors, experts) && n < |sample| && forall i :: 0 <= i < |sample| ==> sample[i] < experts
    ensures AllReadBack(file, tensors, experts, sample[..n + 1])
       <==> AllReadBack(file, tensors, experts, sample[..n]) && ReadsBack(file, tensors, experts, sample[n])
    ensures AllReadBack(file, tensors, experts, sample) ==> ReadsBack(file, tensors, experts, sample[n])
  {
    TakeSnoc(sample, n);
  }

  method WriteFile(header: Bytes, tensors: seq<Stacked>, experts: nat, blockSize: nat) returns (file: Bytes, written: nat)
    requires Holds(tensors, experts) && blockSize == BlockSize(tensors)
    ensures file == HeaderPage(header) + Blocks(tensors, experts, experts) && written == PAGE + Mul(experts, blockSize)
  {
    file := HeaderPage(header);
    written := PAGE;
    for eid := 0 to experts
      invariant file == HeaderPage(header) + Blocks(tensors, experts, eid)
      invariant written == PAGE + Mul(eid, blockSize)
    {
      var block := AssembleBlock(tensors, experts, eid, blockSize);
      file := file + block;
      written := written + blockSize;
    }
  }

  lemma {:induction false} BlockInPlace(tensors: seq<Stacked>, experts: nat, n: nat, eid: nat)
    requires Holds(tensors, experts) && eid < n <= experts
    ensures var at, size := Mul(eid, BlockSize(tensors)), BlockSize(tensors);
      at + size <= Mul(n, size) && Blocks(tensors, experts, n)[at..at + size] == Block(tensors, experts, eid)
  {
    SlotsDisjoint(eid, n, BlockSize(tensors));
    if eid < n - 1 {
      BlockInPlace(tensors, experts, n - 1, eid);
    }
  }

  /** A written layer has the size its readers expect exactly when the header fits its page,
      and then every block is where they look for it. */
  lemma WrittenLayerIsReadable(header: Bytes, tensors: seq<Stacked>, experts: nat, eid: nat)
    requires Holds(tensors, experts) && eid < experts
    ensures var file, size := HeaderPage(header) + Blocks(tensors, experts, experts), BlockSize(tensors);
      && (|file| == PAGE + Mul(experts, size) <==> |header| <= PAGE)
      && (|header| <= PAGE ==>
            PAGE + Mul(eid, size) + size <= |file| &&
            file[PAGE + Mul(eid, size)..PAGE + Mul(eid, size) + size] == Block(tensors, experts, eid))
  {
    var blocks, size := Blocks(tensors, experts, experts), BlockSize(tensors);
    BlockInPlace(tensors, experts, experts, eid);
    if |header| <= PAGE {
      var file := HeaderPage(header) + blocks;
      assert file[PAGE..] == blocks;
      SliceOfSlice(file, PAGE, |file|, Mul(eid, size), size);
    }
  }

  /** Reading back never fails when the header fits its page. */
  lemma WrittenReadsBack(header: Bytes, tensors: seq<Stacked>, experts: nat, eid: nat)
    requires Holds(tensors, experts) && eid < experts && |header| <= PAGE
    ensures ReadsBack(HeaderPage(header) + Blocks(tensors, experts, experts), tensors, experts, eid)
  {
    WrittenLayerIsReadable(header, tensors, experts, eid);
    var expected := Pieces(tensors, experts, eid, |tensors|);
    assert Block(tensors, experts, eid)[..|expected|] == expected;
  }

  /** Where a checkpoint keeps a stacked tensor: a shard, a start, and the bytes per expert. */
  datatype Source = Source(shard: string, start: nat, per: nat)

  /** The checkpoint holds these tensors at these places. */
  ghost predicate Checkpoint(shards: string -> Bytes, sources: seq<Source>, tensors: seq<Stacked>, experts: nat) {
    && Holds(tensors, experts) && |sources| == |tensors|
    && forall t :: 0 <= t < |tensors| ==> TensorAt(shards(sources[t].shard), sources[t], tensors[t])
  }

  ghost predicate TensorAt(shard: Bytes, source: Source, tensor: Stacked) {
    && source.per == tensor.per && source.start + |tensor.data| <= |shard|
    && shard[source.start..source.start + |tensor.data|] == tensor.data
  }

  /** Bytes `a` to `b` of a shard, both ends included. */
  function ReadRange(shard: Bytes, a: nat, b: int): Bytes
    requires a <= b + 1 <= |shard|
  {
    shard[a..b + 1]
  }

  /** Assemble one block from byte ranges: the block the other writer puts into its file. */
  method FetchExpertBlock(shards: string -> Bytes, sources: seq<Source>, blockSize: nat, eid: nat,
                          ghost tensors: seq<Stacked>, ghost experts: nat) returns (block: Bytes)
    requires Checkpoint(shards, sources, tensors, experts) && eid < experts && blockSize == BlockSize(tensors)
    ensures block == Block(tensors, experts, eid)
  {
    block := [];
    for t := 0 to |sources|
      invariant block == Pieces(tensors, experts, eid, t)
    {
      var a := sources[t].start + Mul(eid, sources[t].per);
      RangeIsSlice(shards(sources[t].shard), sources[t], tensors[t], experts, eid);
      block := block + ReadRange(shards(sources[t].shard), a, a + sources[t].per - 1);
    }
    block := block + Zeros(blockSize - |block|);
  }

  lemma RangeIsSlice(shard: Bytes, source: Source, tensor: Stacked, experts: nat, eid: nat)
    requires TensorAt(shard, source, tensor) && |tensor.data| == Mul(experts, tensor.per) && eid < experts
    ensures var a := source.start + Mul(eid, source.per);
      a + source.per <= |shard| && ReadRange(shard, a, a + source.per - 1) == Slice(tensor, experts, eid)
  {
    SlotsDisjoint(eid, experts, tensor.per);
    SliceOfSlice(shard, source.start, source.start + |tensor.data|, Mul(eid, source.per), source.per);
  }
}
