/**
 Pulling a machine's experts from other machines into sparse layer files: every block is
 checked against the published hash before it is written at its fixed offset.
 */
module FetchPartition {
  import opened Collections
  import opened Arithmetic
  import opened BlockFormat

  type Hash = string

  /** `data` overwrites `file` from `at`; a gap or an overrun extends the file. */
  function Pwritten(file: Bytes, at: nat, data: Bytes): Bytes {
    var padded := if |file| < at then file + Zeros(at - |file|) else file;
    padded[..at] + data + (if at + |data| < |padded| then padded[at + |data|..] else [])
  }

  /** The bytes at the fixed offset of an expert. */
  function BlockOf(file: Bytes, blockSize: nat, eid: nat): Bytes {
    Pread(file, PAGE + Mul(eid, blockSize), blockSize)
  }

  function FileSize(experts: nat, blockSize: nat): nat {
    PAGE + Mul(experts, blockSize)
  }

  lemma WholeBlock(file: Bytes, blockSize: nat, experts: nat, eid: nat)
    requires |file| == FileSize(experts, blockSize) && eid < experts
    ensures PAGE + Mul(eid, blockSize) + blockSize <= |file|
    ensures BlockOf(file, blockSize, eid) == file[PAGE + Mul(eid, blockSize)..PAGE + Mul(eid, blockSize) + blockSize]
  {
    SlotsDisjoint(eid, experts, blockSize);
  }

  /** A layer file of the block writer has the size and the blocks expected here. */
  lemma WriterAgrees(header: Bytes, tensors: seq<Stacked>, experts: nat, eid: nat)
    requires Holds(tensors, experts) && eid < experts && |header| <= PAGE
    ensures var file := HeaderPage(header) + Blocks(tensors, experts, experts);
      |file| == FileSize(experts, BlockSize(tensors)) && BlockOf(file, BlockSize(tensors), eid) == Block(tensors, experts, eid)
  {
    WrittenLayerIsReadable(header, tensors, experts, eid);
    WholeBlock(HeaderPage(header) + Blocks(tensors, experts, experts), BlockSize(tensors), experts, eid);
  }

  /** A write inside the file changes the bytes it covers and no others. */
  lemma WriteInside(file: Bytes, at: nat, data: Bytes, a: nat, b: nat)
    requires at + |data| <= |file| && a <= b <= |file| && (b <= at || at + |data| <= a)
    ensures var after := Pwritten(file, at, data);
      |after| == |file| && after[at..at + |data|] == data && after[a..b] == file[a..b]
  {
    var after := Pwritten(file, at, data);
    assert after == file[..at] + data + file[at + |data|..];
  }

  /** A block of the right size lands in its own place and nowhere else. */
  lemma BlockLands(file: Bytes, blockSize: nat, experts: nat, eid: nat, data: Bytes, other: nat)
    requires |file| == FileSize(experts, blockSize) && eid < experts && other < experts && |data| == blockSize
    ensures var after := Pwritten(file, PAGE + Mul(eid, blockSize), data);
      && |after| == |file| && after[..PAGE] == file[..PAGE]
      && BlockOf(after, blockSize, other) == if other == eid then data else BlockOf(file, blockSize, other)
  {
    var at, a := PAGE + Mul(eid, blockSize), PAGE + Mul(other, blockSize);
    var after := Pwritten(file, at, data);
    WholeBlock(file, blockSize, experts, eid);
    WriteInside(file, at, data, 0, PAGE);
    assert after[0..PAGE] == after[..PAGE] && file[0..PAGE] == file[..PAGE];
    WholeBlock(file, blockSize, experts, other);
    WholeBlock(after, blockSize, experts, other);
    if other != eid {
      SlotsApart(eid, other, blockSize);
      WriteInside(file, at, data, a, a + blockSize);
    }
  }

  lemma SlotsApart(m: nat, n: nat, width: nat)
    requires m != n
    ensures Mul(m, width) + width <= Mul(n, width) || Mul(n, width) + width <= Mul(m, width)
  {
    if m < n {
      SlotsDisjoint(m, n, width);
    } else {
      SlotsDisjoint(n, m, width);
    }
  }

  /** A header that fills its page leaves all blocks alone. */
  lemma HeaderLands(file: Bytes, blockSize: nat, experts: nat, header: Bytes, other: nat)
    requires |file| == FileSize(experts, blockSize) && other < experts && |header| == PAGE
    ensures var after := Pwritten(file, 0, header);
      |after| == |file| && BlockOf(after, blockSize, other) == BlockOf(file, blockSize, other)
  {
    var after := Pwritten(file, 0, header);
    assert after == header + file[PAGE..];
    WholeBlock(file, blockSize, experts, other);
    WholeBlock(after, blockSize, experts, other);
  }

  /** All blocks of a layer file. */
  function View(file: Bytes, blockSize: nat, experts: nat): (v: seq<Bytes>)
    ensures |v| == experts
  {
    seq(experts, e requires 0 <= e < experts => BlockOf(file, blockSize, e))
  }

  lemma BlockReplaced(file: Bytes, blockSize: nat, experts: nat, eid: nat, data: Bytes)
    requires |file| == FileSize(experts, blockSize) && eid < experts && |data| == blockSize
    ensures var after := Pwritten(file, PAGE + Mul(eid, blockSize), data);
      |after| == |file| && View(after, blockSize, experts) == View(file, blockSize, experts)[eid := data]
  {
    var after := Pwritten(file, PAGE + Mul(eid, blockSize), data);
    BlockLands(file, blockSize, experts, eid, data, eid);
    forall e | 0 <= e < experts
      ensures View(after, blockSize, experts)[e] == View(file, blockSize, experts)[eid := data][e]
    {
      BlockLands(file, blockSize, experts, eid, data, e);
    }
  }

  lemma HeaderReplaced(file: Bytes, blockSize: nat, experts: nat, header: Bytes)
    requires |file| == FileSize(experts, blockSize) && |header| == PAGE
    ensures var after := Pwritten(file, 0, header);
      |after| == |file| && View(after, blockSize, experts) == View(file, blockSize, experts)
  {
    var after := Pwritten(file, 0, header);
    assert after == header + file[PAGE..];
    forall e | 0 <= e < experts
      ensures View(after, blockSize, experts)[e] == View(file, blockSize, experts)[e]
    {
      HeaderLands(file, blockSize, experts, header, e);
    }
  }

  /** Writing `data` at an expert's place leaves the header, the size and all other blocks alone. */
  ghost predicate KeepsTheRest(file: Bytes, blockSize: nat, experts: nat, eid: nat, data: Bytes) {
    var after := Pwritten(file, PAGE + Mul(eid, blockSize), data);
    && |after| == |file| && after[..PAGE] == file[..PAGE]
    && forall other: nat :: other < experts && other != eid ==> BlockOf(after, blockSize, other) == BlockOf(file, blockSize, other)
  }

  /** A body that is no longer than a block keeps the rest of every file, and no other body does. */
  lemma BodyKeepsTheRest(blockSize: nat, experts: nat, eid: nat, data: Bytes)
    requires eid < experts
    ensures (forall file: Bytes :: |file| == FileSize(experts, blockSize) ==> KeepsTheRest(file, blockSize, experts, eid, data))
       <==> |data| <= blockSize
  {
    if |data| <= blockSize {
      forall file: Bytes | |file| == FileSize(experts, blockSize)
        ensures KeepsTheRest(file, blockSize, experts, eid, data)
      {
        ShortBodyKeepsTheRest(file, blockSize, experts, eid, data);
      }
    } else {
      var file := seq(FileSize(experts, blockSize), i => if data[blockSize] == 0 then 1 else 0);
      LongBodyShows(file, blockSize, experts, eid, data);
    }
  }

  /** A file that nowhere has the first excess byte. */
  lemma LongBodyShows(file: Bytes, blockSize: nat, experts: nat, eid: nat, data: Bytes)
    requires |file| == FileSize(experts, blockSize) && eid < experts && |data| > blockSize
    requires forall i :: 0 <= i < |file| ==> file[i] != data[blockSize]
    ensures !KeepsTheRest(file, blockSize, experts, eid, data)
  {
    if eid + 1 == experts || blockSize == 0 {
      LastBodyExtends(file, blockSize, experts, eid, data);
    } else {
      WholeBlock(file, blockSize, experts, eid + 1);
      LongBodySpills(file, blockSize, experts, eid, data);
    }
  }

  lemma ShortBodyKeepsTheRest(file: Bytes, blockSize: nat, experts: nat, eid: nat, data: Bytes)
    requires |file| == FileSize(experts, blockSize) && eid < experts && |data| <= blockSize
    ensures KeepsTheRest(file, blockSize, experts, eid, data)
  {
    var at := PAGE + Mul(eid, blockSize);
    var after := Pwritten(file, at, data);
    WholeBlock(file, blockSize, experts, eid);
    WriteInside(file, at, data, 0, PAGE);
    assert after[0..PAGE] == after[..PAGE] && file[0..PAGE] == file[..PAGE];
    forall other: nat | other < experts && other != eid
      ensures BlockOf(after, blockSize, other) == BlockOf(file, blockSize, other)
    {
      WholeBlock(file, blockSize, experts, other);
      WholeBlock(after, blockSize, experts, other);
      SlotsApart(eid, other, blockSize);
      WriteInside(file, at, data, PAGE + Mul(other, blockSize), PAGE + Mul(other, blockSize) + blockSize);
    }
  }

  /** What a write that starts inside a file leaves there. */
  lemma WriteFrom(file: Bytes, at: nat, data: Bytes)
    requires at <= |file|
    ensures var after := Pwritten(file, at, data);
      && |after| == (if at + |data| < |file| then |file| else at + |data|) && after[at..at + |data|] == data
  {
    var after := Pwritten(file, at, data);
    assert after == file[..at] + data + (if at + |data| < |file| then file[at + |data|..] else []);
  }

  /** Where the excess of a longer body goes: to the start of the next expert's block. */
  lemma LongBodySpills(file: Bytes, blockSize: nat, experts: nat, eid: nat, data: Bytes)
    requires |file| == FileSize(experts, blockSize) && eid + 1 < experts && |data| > blockSize > 0
    ensures var after, next := Pwritten(file, PAGE + Mul(eid, blockSize), data), PAGE + Mul(eid + 1, blockSize);
      && |after| >= next + (|data| - blockSize) && after[next..next + (|data| - blockSize)] == data[blockSize..]
      && |BlockOf(after, blockSize, eid + 1)| == blockSize && BlockOf(after, blockSize, eid + 1)[0] == data[blockSize]
    ensures BlockOf(file, blockSize, eid + 1) != BlockOf(Pwritten(file, PAGE + Mul(eid, blockSize), data), blockSize, eid + 1) ==>
              !KeepsTheRest(file, blockSize, experts, eid, data)
  {
    var at, next := PAGE + Mul(eid, blockSize), PAGE + Mul(eid + 1, blockSize);
    var after := Pwritten(file, at, data);
    WholeBlock(file, blockSize, experts, eid);
    WholeBlock(file, blockSize, experts, eid + 1);
    WriteFrom(file, at, data);
    ExcessAt(after, at, blockSize, data);
    assert BlockOf(after, blockSize, eid + 1) == after[next..next + blockSize];
  }

  lemma ExcessAt(after: Bytes, at: nat, blockSize: nat, data: Bytes)
    requires at + |data| <= |after| && after[at..at + |data|] == data && blockSize < |data|
    ensures var next := at + blockSize; after[next..next + (|data| - blockSize)] == data[blockSize..] && after[next] == data[blockSize]
  {
    var next := at + blockSize;
    assert after[at..at + |data|][blockSize..] == after[next..next + (|data| - blockSize)];
    assert after[at..at + |data|][blockSize] == after[next];
  }

  /** The excess of the last block extends the file. */
  lemma LastBodyExtends(file: Bytes, blockSize: nat, experts: nat, eid: nat, data: Bytes)
    requires |file| == FileSize(experts, blockSize) && eid < experts && |data| > blockSize
    requires eid + 1 == experts || blockSize == 0
    ensures |Pwritten(file, PAGE + Mul(eid, blockSize), data)| > |file|
  {
    WholeBlock(file, blockSize, experts, eid);
    WriteFrom(file, PAGE + Mul(eid, blockSize), data);
    if blockSize == 0 {
      MulIsProduct(experts, 0);
    }
  }

  type NodeId = string

  predicate SpeedsOf(speed: map<NodeId, Option<real>>, peers: seq<NodeId>) {
    && (forall p :: p in peers ==> p in speed)
    && (forall p :: p in speed && speed[p].Some? ==> speed[p].value >= 0.0)
  }

  /** A peer that was never measured counts as having no speed. */
  function Known(speed: map<NodeId, Option<real>>, p: NodeId): (known: real)
    ensures p in speed && speed[p].Some? ==> speed[p] == Some(known)
    ensures p !in speed || speed[p].None? ==> known == 0.0
  {
    if p in speed && speed[p].Some? then speed[p].value else 0.0
  }

  /** An answer at `rate` moves the estimate towards it, by three parts in ten, or starts it. */
  function Recorded(speed: map<NodeId, Option<real>>, peer: NodeId, rate: real): map<NodeId, Option<real>> {
    var known := Known(speed, peer);
    speed[peer := Some(if known == 0.0 then rate else 0.7 * known + 0.3 * rate)]
  }

  function Penalized(speed: map<NodeId, Option<real>>, peer: NodeId): map<NodeId, Option<real>> {
    speed[peer := Some(Known(speed, peer) / 2.0)]
  }

  /** The fastest of the first `n` peers. */
  function Best(speed: map<NodeId, Option<real>>, peers: seq<NodeId>, n: nat): (best: real)
    requires n <= |peers|
    ensures best >= 0.0 && forall i :: 0 <= i < n ==> Known(speed, peers[i]) <= best
    ensures best == 0.0 || exists i :: 0 <= i < n && Known(speed, peers[i]) == best
  {
    if n == 0 then 0.0
    else
      var best := Best(speed, peers, n - 1);
      if Known(speed, peers[n - 1]) > best then Known(speed, peers[n - 1]) else best
  }

  class PeerRanker {
    const peers: seq<NodeId>
    var speed: map<NodeId, Option<real>>    // megabytes per second, as measured

    ghost predicate Valid()
      reads this
    {
      SpeedsOf(speed, peers)
    }

    constructor (peers: seq<NodeId>)
      ensures Valid() && this.peers == peers
    {
      this.peers := peers;
      speed := map p | p in peers :: None;
    }

    method Forget()
      modifies this
      ensures Valid() && speed == map p | p in peers :: None
    {
      speed := map p | p in peers :: None;
    }

    /** A peer answered at `rate`: a moving average that starts afresh from nothing. */
    method Record(peer: NodeId, rate: real)
      requires Valid() && rate >= 0.0
      modifies this
      ensures Valid() && speed == Recorded(old(speed), peer, rate)
      ensures forall p :: p != peer ==> Known(speed, p) == Known(old(speed), p)
      ensures Known(old(speed), peer) == 0.0 ==> Known(speed, peer) == rate
      ensures Known(old(speed), peer) != 0.0 ==> Known(speed, peer) == 0.7 * Known(old(speed), peer) + 0.3 * rate
      ensures Known(old(speed), peer) <= rate ==> Known(old(speed), peer) <= Known(speed, peer) <= rate
      ensures Known(old(speed), peer) >= rate ==> Known(old(speed), peer) == 0.0 || Known(old(speed), peer) >= Known(speed, peer) >= rate
    {
      var known := Known(speed, peer);
      speed := speed[peer := Some(if known == 0.0 then rate else 0.7 * known + 0.3 * rate)];
    }

    /** The probe starts the estimate afresh. */
    method Measure(peer: NodeId, rate: real)
      requires Valid() && rate >= 0.0
      modifies this
      ensures Valid() && speed == old(speed)[peer := Some(rate)]
    {
      speed := speed[peer := Some(rate)];
    }

    method Penalize(peer: NodeId)
      requires Valid()
      modifies this
      ensures Valid() && speed == Penalized(old(speed), peer) && Known(speed, peer) == Known(old(speed), peer) / 2.0
      ensures forall p :: p != peer ==> Known(speed, p) == Known(old(speed), p)
    {
      speed := speed[peer := Some(Known(speed, peer) / 2.0)];
    }

    /** The weight a peer is drawn with when some peer is known to be fast. */
    function Weight(p: NodeId): (w: real)
      reads this
      ensures w >= Known(speed, p) && 10.0 * w >= Best(speed, peers, |peers|)
      ensures w == Known(speed, p) || 10.0 * w == Best(speed, peers, |peers|)
      ensures p in peers ==> w <= Best(speed, peers, |peers|)
    {
      var floor := Best(speed, peers, |peers|) * 0.1;
      if Known(speed, p) > floor then Known(speed, p) else floor
    }

    /** All peers, drawn one by one without replacement. `draw` picks the next one; while some
        speed is known every remaining peer can be picked, because every weight is positive. */
    method Order(draw: nat -> nat) returns (order: seq<NodeId>)
      requires Valid()
      ensures multiset(order) == multiset(peers) && |order| == |peers|
      ensures Best(speed, peers, |peers|) > 0.0 ==> forall p :: p in order ==> Weight(p) > 0.0
    {
      var remaining := peers;
      order := [];
      while remaining != []
        invariant multiset(order) + multiset(remaining) == multiset(peers) && |order| + |remaining| == |peers|
        decreases |remaining|
      {
        var i := draw(|order|) % |remaining|;
        assert remaining == remaining[..i] + [remaining[i]] + remaining[i + 1..];
        order := order + [remaining[i]];
        remaining := remaining[..i] + remaining[i + 1..];
      }
    }
  }

  /** Bytes credited to the first `n` peers. */
  function Credits(delivered: map<NodeId, nat>, peers: seq<NodeId>, n: nat): nat
    requires n <= |peers|
  {
    if n == 0 then 0
    else Credits(delivered, peers, n - 1) + if peers[n - 1] in delivered then delivered[peers[n - 1]] else 0
  }

  function Credited(delivered: map<NodeId, nat>, peer: NodeId, n: nat): map<NodeId, nat> {
    delivered[peer := (if peer in delivered then delivered[peer] else 0) + n]
  }

  /** A credit raises the total by its amount. */
  lemma {:induction false} CreditAdds(delivered: map<NodeId, nat>, peers: seq<NodeId>, n: nat, i: nat, amount: nat)
    requires Distinct(peers) && n <= |peers| && i < |peers|
    ensures Credits(Credited(delivered, peers[i], amount), peers, n) == Credits(delivered, peers, n) + if i < n then amount else 0
  {
    if n > 0 {
      CreditAdds(delivered, peers, n - 1, i, amount);
    }
  }

  const TRIES: nat := 3

  /** What a run has spent: bytes delivered, blocks written, requests made. */
  datatype Account = Account(bytes: nat, fetched: nat, requests: nat)

  class PartitionFetcher {
    const layers: nat
    const experts: nat
    const blockSize: nat
    const mine: seq<nat>                         // the experts this machine owns
    const header: nat -> Bytes                   // a layer's header
    const hash: Bytes -> Hash
    const wanted: (nat, nat) -> Option<Hash>     // the manifest
    const ranker: PeerRanker
    const answers: (nat, NodeId) -> Option<Bytes>  // what a peer returns to the n-th request; None is a failure
    const draws: (nat, nat) -> nat               // the random draws made before the n-th request
    const rates: nat -> real                     // the throughput the n-th request is measured at
    ghost const published: (nat, nat) -> Bytes   // the blocks of the model

    var files: map<nat, Bytes>
    var fetched: nat
    var skipped: nat
    var bytes: nat
    var delivered: map<NodeId, nat>
    var requests: nat

    /** Peers are told apart, and throughputs are not negative. */
    ghost predicate Sane() {
      Distinct(ranker.peers) && forall n: nat :: rates(n) >= 0.0
    }

    /** Only the published block has its hash, and the manifest lists no other hash for it. */
    ghost predicate HashTells(layer: nat, eid: nat) {
      && (forall data: Bytes :: hash(data) == hash(published(layer, eid)) ==> data == published(layer, eid))
      && (wanted(layer, eid).Some? ==> wanted(layer, eid).value == hash(published(layer, eid)))
    }

    /** The block has a published hash, and a hash tells. */
    ghost predicate Protected(layer: nat, eid: nat) {
      wanted(layer, eid).Some? && HashTells(layer, eid) && |published(layer, eid)| == blockSize
    }

    /** The job is well formed: owned experts exist, headers fit their page, and every owned
        block is protected. */
    ghost predicate WellFormed() {
      && Sane()
      && (forall e :: e in mine ==> e < experts)
      && (forall l: nat :: |header(l)| <= PAGE)
      && (forall l: nat, e :: l < layers && e in mine ==> Protected(l, e))
    }

    /** Every byte counted is credited to a peer. */
    ghost predicate Consistent()
      reads this, ranker
    {
      Sane() && ranker.Valid() && bytes == Credits(delivered, ranker.peers, |ranker.peers|)
    }

    ghost predicate Valid()
      reads this, ranker
    {
      WellFormed() && Consistent()
    }

    /** The answer is usable: it has the published hash, if there is one. */
    predicate Accepted(layer: nat, eid: nat, data: Bytes) {
      wanted(layer, eid).Some? ==> hash(data) == wanted(layer, eid).value
    }

    predicate HaveBlock(file: Bytes, layer: nat, eid: nat) {
      && wanted(layer, eid).Some?
      && |BlockOf(file, blockSize, eid)| == blockSize
      && hash(BlockOf(file, blockSize, eid)) == wanted(layer, eid).value
    }

    ghost predicate FullSize(file: Bytes) {
      |file| == FileSize(experts, blockSize)
    }

    /** The file of a layer as the run finds it: what is there when the size is right, else
        holes. */
    function Base(before: Option<Bytes>): Bytes {
      if before.Some? && |before.value| == FileSize(experts, blockSize) then before.value
      else Zeros(FileSize(experts, blockSize))
    }

    function At(files: map<nat, Bytes>, layer: nat): Option<Bytes> {
      if layer in files then Some(files[layer]) else None
    }

    ghost function Seen(file: Bytes): (v: seq<Bytes>)
      ensures |v| == experts
    {
      View(file, blockSize, experts)
    }

    /** Every block is as found, or is an owned block as published. */
    ghost predicate Sound(view: seq<Bytes>, base: seq<Bytes>, layer: nat) {
      && |view| == |base| == experts
      && forall e: nat :: e < experts ==> view[e] == base[e] || (e in mine && view[e] == published(layer, e))
    }

    /** The file has this block as published. */
    ghost predicate Had(view: seq<Bytes>, layer: nat, e: nat) {
      e < |view| && view[e] == published(layer, e)
    }

    ghost predicate Complete(view: seq<Bytes>, layer: nat) {
      forall e :: e in mine ==> Had(view, layer, e)
    }

    constructor (layers: nat, experts: nat, blockSize: nat, mine: seq<nat>, header: nat -> Bytes, hash: Bytes -> Hash,
                 wanted: (nat, nat) -> Option<Hash>, peers: seq<NodeId>, answers: (nat, NodeId) -> Option<Bytes>,
                 draws: (nat, nat) -> nat, rates: nat -> real, ghost published: (nat, nat) -> Bytes, files: map<nat, Bytes>)
      ensures ranker.Valid() && ranker.peers == peers && this.files == files && fresh(ranker)
      ensures this.mine == mine && this.published == published && this.layers == layers && this.experts == experts
      ensures this.blockSize == blockSize && this.header == header && this.hash == hash && this.wanted == wanted
      ensures this.answers == answers && this.draws == draws && this.rates == rates
      ensures fetched == skipped == bytes == requests == 0 && delivered == map[]
    {
      this.layers, this.experts, this.blockSize, this.mine, this.header := layers, experts, blockSize, mine, header;
      this.hash, this.wanted, this.answers, this.draws, this.rates := hash, wanted, answers, draws, rates;
      this.published, this.files := published, files;
      fetched, skipped, bytes, delivered, requests := 0, 0, 0, map[], 0;
      ranker := new PeerRanker(peers);
    }

    /** A layer after the first `n` blocks of `todo` were stored. */
    ghost function Filled(view: seq<Bytes>, layer: nat, todo: seq<nat>, n: nat): (v: seq<Bytes>)
      requires n <= |todo| && |view| == experts && forall i :: 0 <= i < |todo| ==> todo[i] < experts
      ensures |v| == experts
    {
      if n == 0 then view else Filled(view, layer, todo, n - 1)[todo[n - 1] := published(layer, todo[n - 1])]
    }

    /** Storing owned blocks makes them complete, leaves every other expert's block alone, and
        undoes nothing. */
    lemma {:induction false} FilledAt(view: seq<Bytes>, layer: nat, todo: seq<nat>, n: nat, e: nat)
      requires n <= |todo| && |view| == experts && e < experts && forall i :: 0 <= i < |todo| ==> todo[i] < experts
      ensures Filled(view, layer, todo, n)[e] == if e in todo[..n] then published(layer, e) else view[e]
    {
      if n > 0 {
        FilledAt(view, layer, todo, n - 1, e);
        TakeSnoc(todo, n - 1);
      }
    }

    lemma {:induction false} FilledShift(view: seq<Bytes>, layer: nat, todo: seq<nat>, n: nat)
      requires n < |todo| && |view| == experts && forall i :: 0 <= i < |todo| ==> todo[i] < experts
      ensures Filled(Filled(view, layer, todo, 1), layer, todo[1..], n) == Filled(view, layer, todo, n + 1)
    {
      if n > 0 {
        FilledShift(view, layer, todo, n - 1);
      }
    }

    lemma FilledIsSound(view: seq<Bytes>, layer: nat, todo: seq<nat>, n: nat)
      requires n <= |todo| && |view| == experts
      requires forall i :: 0 <= i < |todo| ==> todo[i] in mine && todo[i] < experts
      ensures Sound(Filled(view, layer, todo, n), view, layer)
      ensures n == |todo| && (forall e :: e in mine ==> e in todo || Had(view, layer, e)) ==>
                Complete(Filled(view, layer, todo, n), layer)
    {
      forall e: nat | e < experts
        ensures Filled(view, layer, todo, n)[e] == if e in todo[..n] then published(layer, e) else view[e]
      {
        FilledAt(view, layer, todo, n, e);
      }
      assert todo[..|todo|] == todo;
    }

    /** What the n-th request, sent to `peer`, delivers: an answer with the right hash. */
    function Delivery(layer: nat, eid: nat, n: nat, peer: NodeId): Option<Bytes> {
      var data := answers(n, peer);
      if data.Some? && Accepted(layer, eid, data.value) then data else None
    }

    /** Whatever a peer sends, what is accepted is the published block if and only if the manifest
        has a hash for it. */
    lemma AcceptedIsPublished(layer: nat, eid: nat)
      requires HashTells(layer, eid)
      ensures (forall data: Bytes :: Accepted(layer, eid, data) ==> data == published(layer, eid)) <==> wanted(layer, eid).Some?
    {
      if wanted(layer, eid).None? {
        var other: Bytes := published(layer, eid) + [0];
        assert Accepted(layer, eid, other) && |other| != |published(layer, eid)|;
      }
    }

    /** One request, verified or nothing. */
    method Ask(layer: nat, eid: nat, peer: NodeId) returns (data: Option<Bytes>, rate: real)
      requires Sane()
      modifies this`requests
      ensures requests == old(requests) + 1 && rate == rates(old(requests)) >= 0.0
      ensures data == Delivery(layer, eid, old(requests), peer)
      ensures Protected(layer, eid) && data.Some? ==> data.value == published(layer, eid) && |data.value| == blockSize
    {
      data, rate := answers(requests, peer), rates(requests);
      requests := requests + 1;
      if data.Some? && !Accepted(layer, eid, data.value) {
        return None, rate;
      }
    }

    /** Every peer answers the n-th request, with any body. */
    ghost predicate AllAnswer(n: nat) {
      ranker.peers != [] && forall p :: p in ranker.peers ==> answers(n, p).Some?
    }

    /** The peer that attempt `a` goes to: the order is walked round. */
    function Turn(order: seq<NodeId>, a: nat): NodeId
      requires order != []
      ensures Turn(order, a) in order && (a < |order| ==> Turn(order, a) == order[a])
    {
      QuotRemDivide(a, |order|);
      order[Rem(a, |order|)]
    }

    /** After the last peer the first is asked again. */
    lemma TurnsGoRound(order: seq<NodeId>, a: nat)
      requires order != []
      ensures Turn(order, a + |order|) == Turn(order, a)
    {
    }

    /** The attempts below `n`, each sent to the next peer in the order, brought nothing. */
    ghost predicate AllFailed(layer: nat, eid: nat, first: nat, order: seq<NodeId>, n: nat) {
      order != [] && forall a :: 0 <= a < n ==> Delivery(layer, eid, first + a, Turn(order, a)).None?
    }

    /** The speeds after the n-th request, to `peer`: what was rejected counts as a failure. */
    function Judged(speed: map<NodeId, Option<real>>, layer: nat, eid: nat, n: nat, peer: NodeId): map<NodeId, Option<real>> {
      if Delivery(layer, eid, n, peer).Some? then Recorded(speed, peer, rates(n)) else Penalized(speed, peer)
    }

    /** The speeds after the first `n` attempts. */
    function JudgedAll(speed: map<NodeId, Option<real>>, layer: nat, eid: nat, first: nat, order: seq<NodeId>, n: nat): map<NodeId, Option<real>>
      requires n == 0 || order != []
    {
      if n == 0 then speed
      else Judged(JudgedAll(speed, layer, eid, first, order, n - 1), layer, eid, first + n - 1, Turn(order, n - 1))
    }

    /** A peer that delivers this block to every request. */
    ghost predicate Delivers(layer: nat, eid: nat, peer: NodeId) {
      peer in ranker.peers && forall n: nat :: Delivery(layer, eid, n, peer).Some?
    }

    /** With no more peers than attempts, nobody is left out. */
    lemma SomebodyDelivers(layer: nat, eid: nat, first: nat, order: seq<NodeId>, peer: NodeId)
      requires Delivers(layer, eid, peer) && multiset(order) == multiset(ranker.peers) && |order| <= TRIES
      ensures !AllFailed(layer, eid, first, order, TRIES)
    {
      assert peer in multiset(order);
      var a :| 0 <= a < |order| && order[a] == peer;
      assert Delivery(layer, eid, first + a, Turn(order, a)).Some?;
    }

    /** Pull one block, best peers first, at most three requests. The peers take turns in the order
        drawn, and the block comes from the peer that was asked last; one without a published hash
        is the first answer, whatever that is. */
    method FetchBlock(layer: nat, eid: nat) returns (data: Option<Bytes>, peer: NodeId, ghost order: seq<NodeId>)
      requires Sane() && ranker.Valid()
      modifies this`requests, ranker
      ensures ranker.Valid() && old(requests) <= requests <= old(requests) + TRIES
      ensures multiset(order) == multiset(ranker.peers) && |order| == |ranker.peers|
      ensures data.Some? ==> requests > old(requests) && data == Delivery(layer, eid, requests - 1, peer) && peer in ranker.peers
      ensures data.Some? ==> AllFailed(layer, eid, old(requests), order, requests - 1 - old(requests))
                             && peer == Turn(order, requests - 1 - old(requests))
      ensures data.None? && ranker.peers != [] ==> AllFailed(layer, eid, old(requests), order, TRIES)
      ensures |ranker.peers| <= TRIES && (exists p :: Delivers(layer, eid, p)) ==> data.Some?
      ensures (order == [] ==> requests == old(requests))
              && ranker.speed == JudgedAll(old(ranker.speed), layer, eid, old(requests), order, requests - old(requests))
      ensures Protected(layer, eid) && data.Some? ==> data.value == published(layer, eid) && |data.value| == blockSize
      ensures wanted(layer, eid).None? && AllAnswer(old(requests)) ==>
                data.Some? && requests == old(requests) + 1 && data == answers(old(requests), peer)
      ensures data.None? ==> requests == if ranker.peers == [] then old(requests) else old(requests) + TRIES
    {
      var drawn := requests;
      var peers := ranker.Order(i => draws(drawn, i));
      order := peers;
      if peers == [] {
        return None, "", order;
      }
      data, peer := TakeTurns(layer, eid, peers);
      if data.Some? {
        assert peer in multiset(order);
      } else if p :| Delivers(layer, eid, p) && |order| <= TRIES {
        SomebodyDelivers(layer, eid, old(requests), order, p);
      }
      FirstAnswerTaken(layer, eid, old(requests), order);
    }

    /** When all peers answer the first request and no hash is wanted, the first attempt succeeds. */
    lemma FirstAnswerTaken(layer: nat, eid: nat, first: nat, order: seq<NodeId>)
      requires order != [] && multiset(order) == multiset(ranker.peers)
      ensures wanted(layer, eid).None? && AllAnswer(first) ==> forall n :: n > 0 ==> !AllFailed(layer, eid, first, order, n)
    {
      assert Turn(order, 0) in multiset(order);
      assert wanted(layer, eid).None? && AllAnswer(first) ==> Delivery(layer, eid, first + 0, Turn(order, 0)).Some?;
    }

    /** At most three attempts, each to the next peer, until one delivers. */
    method TakeTurns(layer: nat, eid: nat, order: seq<NodeId>) returns (data: Option<Bytes>, peer: NodeId)
      requires Sane() && ranker.Valid() && order != []
      modifies this`requests, ranker
      ensures ranker.Valid() && old(requests) < requests <= old(requests) + TRIES
      ensures AllFailed(layer, eid, old(requests), order, requests - old(requests) - if data.Some? then 1 else 0)
      ensures data.Some? ==> data == Delivery(layer, eid, requests - 1, peer) && peer == Turn(order, requests - 1 - old(requests))
      ensures data.None? ==> requests == old(requests) + TRIES
      ensures ranker.speed == JudgedAll(old(ranker.speed), layer, eid, old(requests), order, requests - old(requests))
    {
      peer := Turn(order, 0);
      ghost var first, speed := requests, ranker.speed;
      for attempt := 0 to TRIES
        invariant ranker.Valid() && requests == first + attempt
        invariant AllFailed(layer, eid, first, order, attempt)
        invariant ranker.speed == JudgedAll(speed, layer, eid, first, order, attempt)
      {
        peer := Turn(order, attempt);
        data := Attempt(layer, eid, peer);
        JudgedOneMore(speed, layer, eid, first, order, attempt);
        if data.Some? {
          return;
        }
        FailedOneMore(layer, eid, first, order, attempt);
      }
      return None, peer;
    }

    lemma FailedOneMore(layer: nat, eid: nat, first: nat, order: seq<NodeId>, n: nat)
      requires AllFailed(layer, eid, first, order, n) && Delivery(layer, eid, first + n, Turn(order, n)).None?
      ensures AllFailed(layer, eid, first, order, n + 1)
    {
    }

    lemma JudgedOneMore(speed: map<NodeId, Option<real>>, layer: nat, eid: nat, first: nat, order: seq<NodeId>, n: nat)
      requires order != []
      ensures JudgedAll(speed, layer, eid, first, order, n + 1)
           == Judged(JudgedAll(speed, layer, eid, first, order, n), layer, eid, first + n, Turn(order, n))
    {
    }

    /** Ask a peer, and rank it by what it did. */
    method Attempt(layer: nat, eid: nat, peer: NodeId) returns (data: Option<Bytes>)
      requires Sane() && ranker.Valid()
      modifies this`requests, ranker
      ensures ranker.Valid() && requests == old(requests) + 1
      ensures data == Delivery(layer, eid, old(requests), peer)
      ensures ranker.speed == Judged(old(ranker.speed), layer, eid, old(requests), peer)
    {
      var rate;
      data, rate := Ask(layer, eid, peer);
      if data.Some? {
        ranker.Record(peer, rate);
      } else {
        ranker.Penalize(peer);
      }
    }

    /** No more peers than attempts, and one of them delivers every block this machine owns. */
    ghost predicate Reliable() {
      |ranker.peers| <= TRIES && exists p :: p in ranker.peers && DeliversAll(p)
    }

    ghost predicate DeliversAll(p: NodeId) {
      forall l: nat, e :: l < layers && e in mine ==> Delivers(l, e, p)
    }

    /** Create or reopen a layer's file and write its header. */
    method OpenLayer(layer: nat)
      requires WellFormed()
      modifies this`files
      ensures layer in files && files == old(files)[layer := files[layer]]
      ensures FullSize(files[layer]) && Seen(files[layer]) == Seen(Base(At(old(files), layer)))
      ensures files[layer][..PAGE] == HeaderPage(header(layer))
    {
      var file := Base(At(files, layer));
      HeaderReplaced(file, blockSize, experts, HeaderPage(header(layer)));
      files := files[layer := Pwritten(file, 0, HeaderPage(header(layer)))];
    }

    /** `todo` lists owned experts of a layer whose file is open. */
    ghost predicate Pending(layer: nat, todo: seq<nat>)
      reads this
    {
      && layer < layers && layer in files && FullSize(files[layer])
      && forall i :: 0 <= i < |todo| ==> todo[i] in mine && todo[i] < experts
    }

    /** Which owned blocks still have to be pulled; the others count as skipped. */
    method Check(layer: nat) returns (todo: seq<nat>)
      requires WellFormed() && layer < layers && layer in files && FullSize(files[layer])
      modifies this`skipped
      ensures skipped + |todo| == old(skipped) + |mine| && |todo| <= |mine|
      ensures Pending(layer, todo)
      ensures forall e :: e in mine ==> e in todo || Had(Seen(files[layer]), layer, e)
      ensures Complete(Seen(files[layer]), layer) ==> todo == []
    {
      todo := [];
      for i := 0 to |mine|
        invariant skipped + |todo| == old(skipped) + i && |todo| <= i
        invariant Pending(layer, todo)
        invariant forall j :: 0 <= j < i ==> mine[j] in todo || Had(Seen(files[layer]), layer, mine[j])
        invariant Complete(Seen(files[layer]), layer) ==> todo == []
      {
        var eid := mine[i];
        assert eid in mine && Protected(layer, eid);
        WholeBlock(files[layer], blockSize, experts, eid);
        if HaveBlock(files[layer], layer, eid) {
          skipped := skipped + 1;
        } else {
          todo := todo + [eid];
        }
      }
    }

    method Credit(peer: NodeId, n: nat)
      requires Consistent() && peer in ranker.peers
      modifies this`bytes, this`delivered
      ensures Consistent() && bytes == old(bytes) + n && delivered == Credited(old(delivered), peer, n)
    {
      var i :| 0 <= i < |ranker.peers| && ranker.peers[i] == peer;
      CreditAdds(delivered, ranker.peers, |ranker.peers|, i, n);
      delivered := Credited(delivered, peer, n);
      bytes := bytes + n;
    }

    /** The credits after a probe whose requests started with the `at`-th, for the first `n`
        peers: exactly those that delivered are credited, with what they delivered. */
    function ProbeCredits(delivered: map<NodeId, nat>, layer: nat, eid: nat, at: nat, n: nat): map<NodeId, nat>
      requires n <= |ranker.peers|
    {
      if n == 0 then delivered
      else
        var before := ProbeCredits(delivered, layer, eid, at, n - 1);
        var data := Delivery(layer, eid, at + n - 1, ranker.peers[n - 1]);
        if data.Some? then Credited(before, ranker.peers[n - 1], |data.value|) else before
    }

    /** The last copy such a probe delivered. */
    function LastCopy(layer: nat, eid: nat, at: nat, n: nat): Option<Bytes>
      requires n <= |ranker.peers|
    {
      if n == 0 then None
      else
        var data := Delivery(layer, eid, at + n - 1, ranker.peers[n - 1]);
        if data.Some? then data else LastCopy(layer, eid, at, n - 1)
    }

    /** That is: there is one exactly when some peer delivered, and nobody after it did. */
    lemma {:induction false} LastCopyIsLast(layer: nat, eid: nat, at: nat, n: nat)
      requires n <= |ranker.peers|
      ensures LastCopy(layer, eid, at, n).Some? <==> exists j :: 0 <= j < n && Delivery(layer, eid, at + j, ranker.peers[j]).Some?
      ensures LastCopy(layer, eid, at, n).Some? ==> exists j :: 0 <= j < n && IsLast(layer, eid, at, n, j)
    {
      if n > 0 {
        LastCopyIsLast(layer, eid, at, n - 1);
        if Delivery(layer, eid, at + n - 1, ranker.peers[n - 1]).Some? {
          assert IsLast(layer, eid, at, n, n - 1);
        } else if LastCopy(layer, eid, at, n - 1).Some? {
          var j :| 0 <= j < n - 1 && IsLast(layer, eid, at, n - 1, j);
          assert IsLast(layer, eid, at, n, j);
        }
      }
    }

    ghost predicate IsLast(layer: nat, eid: nat, at: nat, n: nat, j: nat)
      requires j < n <= |ranker.peers|
    {
      && LastCopy(layer, eid, at, n) == Delivery(layer, eid, at + j, ranker.peers[j])
      && forall i :: j < i < n ==> Delivery(layer, eid, at + i, ranker.peers[i]).None?
    }

    /** How many peers deliver a copy to such a probe. */
    function Copies(layer: nat, eid: nat, at: nat, n: nat): (c: nat)
      requires n <= |ranker.peers|
      ensures c <= n
    {
      if n == 0 then 0
      else Copies(layer, eid, at, n - 1) + if Delivery(layer, eid, at + n - 1, ranker.peers[n - 1]).Some? then 1 else 0
    }

    lemma {:induction false} SomeCopy(layer: nat, eid: nat, at: nat, n: nat)
      requires n <= |ranker.peers|
      ensures LastCopy(layer, eid, at, n).Some? <==> Copies(layer, eid, at, n) > 0
    {
      if n > 0 {
        SomeCopy(layer, eid, at, n - 1);
      }
    }

    /** The speeds such a probe leaves: what was measured of those that delivered, none for the rest. */
    ghost predicate Probed(speed: map<NodeId, Option<real>>, layer: nat, eid: nat, at: nat, n: nat) {
      n <= |ranker.peers| && forall j :: 0 <= j < n ==> ProbedOne(speed, layer, eid, at, j)
    }

    ghost predicate ProbedOne(speed: map<NodeId, Option<real>>, layer: nat, eid: nat, at: nat, j: nat)
      requires j < |ranker.peers|
    {
      var p := ranker.peers[j];
      p in speed && speed[p] == Some(if Delivery(layer, eid, at + j, p).Some? then rates(at + j) else 0.0)
    }

    lemma ProbedOneMore(speed: map<NodeId, Option<real>>, layer: nat, eid: nat, at: nat, n: nat)
      requires Distinct(ranker.peers) && n < |ranker.peers| && Probed(speed, layer, eid, at, n)
      ensures var rate := if Delivery(layer, eid, at + n, ranker.peers[n]).Some? then rates(at + n) else 0.0;
        Probed(speed[ranker.peers[n] := Some(rate)], layer, eid, at, n + 1)
    {
      var after := speed[ranker.peers[n] := Some(if Delivery(layer, eid, at + n, ranker.peers[n]).Some? then rates(at + n) else 0.0)];
      forall j | 0 <= j < n + 1
        ensures ProbedOne(after, layer, eid, at, j)
      {
        assert j < n ==> ProbedOne(speed, layer, eid, at, j);
      }
    }

    /** Every peer serves the first needed block once; whoever delivers it is credited, and the
        last copy is used. */
    method Probe(layer: nat, eid: nat) returns (got: Option<Bytes>)
      requires Valid() && layer < layers && eid in mine
      modifies this`requests, this`bytes, this`delivered, ranker
      ensures Valid() && requests == old(requests) + |ranker.peers|
      ensures got.Some? ==> got.value == published(layer, eid)
      ensures got == LastCopy(layer, eid, old(requests), |ranker.peers|)
      ensures bytes == old(bytes) + Mul(Copies(layer, eid, old(requests), |ranker.peers|), blockSize)
      ensures Probed(ranker.speed, layer, eid, old(requests), |ranker.peers|)
      ensures delivered == ProbeCredits(old(delivered), layer, eid, old(requests), |ranker.peers|)
    {
      ghost var at := requests;
      var copies := AskEverybody(layer, eid);
      got := None;
      for i := 0 to |ranker.peers|
        invariant Valid() && requests == at + |ranker.peers|
        invariant got.Some? ==> got.value == published(layer, eid)
        invariant got == LastCopy(layer, eid, at, i)
        invariant bytes == old(bytes) + Mul(Copies(layer, eid, at, i), blockSize)
        invariant Probed(ranker.speed, layer, eid, at, |ranker.peers|)
        invariant delivered == ProbeCredits(old(delivered), layer, eid, at, i)
      {
        if copies[i].Some? {
          Credit(ranker.peers[i], |copies[i].value|);
          got := copies[i];
        }
      }
    }

    /** The requests of a probe. A delivery sets the peer's speed, a failure clears it. */
    method AskEverybody(layer: nat, eid: nat) returns (copies: seq<Option<Bytes>>)
      requires Valid() && layer < layers && eid in mine
      modifies this`requests, ranker
      ensures Valid() && requests == old(requests) + |ranker.peers| && |copies| == |ranker.peers|
      ensures forall j :: 0 <= j < |copies| ==> copies[j] == Delivery(layer, eid, old(requests) + j, ranker.peers[j])
      ensures forall j :: 0 <= j < |copies| && copies[j].Some? ==> copies[j].value == published(layer, eid) && |copies[j].value| == blockSize
      ensures Probed(ranker.speed, layer, eid, old(requests), |ranker.peers|)
    {
      copies := [];
      for i := 0 to |ranker.peers|
        invariant Valid() && requests == old(requests) + i && |copies| == i
        invariant forall j :: 0 <= j < i ==> copies[j] == Delivery(layer, eid, old(requests) + j, ranker.peers[j])
        invariant forall j :: 0 <= j < i && copies[j].Some? ==> copies[j].value == published(layer, eid) && |copies[j].value| == blockSize
        invariant Probed(ranker.speed, layer, eid, old(requests), i)
      {
        var data, rate := Ask(layer, eid, ranker.peers[i]);
        ProbedOneMore(ranker.speed, layer, eid, old(requests), i);
        ranker.Measure(ranker.peers[i], if data.Some? then rate else 0.0);
        copies := copies + [data];
      }
    }

    /** Write a delivered block at its place. */
    method Store(layer: nat, eid: nat, data: Bytes)
      requires layer in files && FullSize(files[layer]) && eid < experts && |data| == blockSize
      modifies this`files, this`fetched
      ensures layer in files && files == old(files)[layer := files[layer]] && fetched == old(fetched) + 1
      ensures FullSize(files[layer]) && Seen(files[layer]) == Seen(old(files)[layer])[eid := data]
    {
      BlockReplaced(files[layer], blockSize, experts, eid, data);
      files := files[layer := Pwritten(files[layer], PAGE + Mul(eid, blockSize), data)];
      fetched := fetched + 1;
    }

    /** Pull one block and write it as it arrives, whatever its length. */
    method PullBlock(layer: nat, eid: nat) returns (data: Option<Bytes>, ghost peer: NodeId)
      requires Consistent() && layer in files
      modifies this, ranker
      ensures Consistent() && layer in files && skipped == old(skipped)
      ensures files == if data.Some? then old(files)[layer := Pwritten(old(files)[layer], PAGE + Mul(eid, blockSize), data.value)]
                       else old(files)
      ensures fetched == old(fetched) + if data.Some? then 1 else 0
      ensures bytes == old(bytes) + if data.Some? then |data.value| else 0
      ensures delivered == if data.Some? then Credited(old(delivered), peer, |data.value|) else old(delivered)
      ensures old(requests) <= requests <= old(requests) + TRIES
      ensures Protected(layer, eid) && data.Some? ==> data.value == published(layer, eid) && |data.value| == blockSize
      ensures wanted(layer, eid).None? && AllAnswer(old(requests)) ==>
                data.Some? && peer in ranker.peers && data == answers(old(requests), peer)
      ensures |ranker.peers| <= TRIES && (exists p :: Delivers(layer, eid, p)) ==> data.Some?
    {
      var from;
      ghost var order;
      data, from, order := FetchBlock(layer, eid);
      peer := from;
      if data.Some? {
        files := files[layer := Pwritten(files[layer], PAGE + Mul(eid, blockSize), data.value)];
        Credit(from, |data.value|);
        fetched := fetched + 1;
      }
    }

    /** Pull the next block that is needed. */
    method PullOne(layer: nat, todo: seq<nat>, n: nat, ghost view: seq<Bytes>) returns (ok: bool)
      requires Valid() && Pending(layer, todo) && n < |todo| && |view| == experts
      requires Seen(files[layer]) == Filled(view, layer, todo, n)
      modifies this, ranker
      ensures Valid() && Pending(layer, todo) && files == old(files)[layer := files[layer]]
      ensures Seen(files[layer]) == Filled(view, layer, todo, if ok then n + 1 else n)
      ensures fetched == old(fetched) + (if ok then 1 else 0) && skipped == old(skipped)
      ensures bytes == old(bytes) + (if ok then blockSize else 0) && old(requests) <= requests <= old(requests) + TRIES
      ensures Reliable() ==> ok
    {
      if p :| Reliable() && p in ranker.peers && DeliversAll(p) {
        assert Delivers(layer, todo[n], p);
      }
      ghost var file := files[layer];
      var data, _ := PullBlock(layer, todo[n]);
      if data.Some? {
        BlockReplaced(file, blockSize, experts, todo[n], data.value);
      }
      return data.Some?;
    }

    /** Pull the blocks in turn; stop at the first that no peer can serve. `n` blocks were
        written. */
    method Pull(layer: nat, todo: seq<nat>) returns (ok: bool, n: nat)
      requires Valid() && Pending(layer, todo)
      modifies this, ranker
      ensures Valid() && Pending(layer, todo) && files == old(files)[layer := files[layer]]
      ensures n <= |todo| && (ok ==> n == |todo|) && (todo == [] ==> ok) && (Reliable() ==> ok)
      ensures Seen(files[layer]) == Filled(Seen(old(files)[layer]), layer, todo, n)
      ensures fetched == old(fetched) + n && skipped == old(skipped)
      ensures bytes == old(bytes) + Mul(n, blockSize)
      ensures old(requests) <= requests <= old(requests) + Mul(|todo|, TRIES)
    {
      ghost var view := Seen(files[layer]);
      n := 0;
      while n < |todo|
        invariant n <= |todo| && Valid() && Pending(layer, todo) && files == old(files)[layer := files[layer]]
        invariant Seen(files[layer]) == Filled(view, layer, todo, n)
        invariant fetched == old(fetched) + n && skipped == old(skipped)
        invariant bytes == old(bytes) + Mul(n, blockSize)
        invariant old(requests) <= requests <= old(requests) + Mul(n, TRIES)
      {
        ok := PullOne(layer, todo, n, view);
        SlotsMonotone(n + 1, |todo|, TRIES);
        if !ok {
          return false, n;
        }
        n := n + 1;
      }
      return true, n;
    }

    /** Pull the first block by probing everybody; on failure it stays to be pulled. */
    method ProbeFirst(layer: nat, todo: seq<nat>) returns (stored: bool, ghost copies: nat)
      requires Valid() && Pending(layer, todo) && todo != []
      modifies this, ranker
      ensures Valid() && Pending(layer, todo) && Pending(layer, todo[1..]) && files == old(files)[layer := files[layer]]
      ensures Seen(files[layer]) == Filled(Seen(old(files)[layer]), layer, todo, if stored then 1 else 0)
      ensures fetched == old(fetched) + (if stored then 1 else 0) && skipped == old(skipped)
      ensures copies <= |ranker.peers| && (stored <==> copies > 0) && bytes == old(bytes) + Mul(copies, blockSize)
      ensures requests == old(requests) + |ranker.peers|
    {
      copies := Copies(layer, todo[0], requests, |ranker.peers|);
      SomeCopy(layer, todo[0], requests, |ranker.peers|);
      var got := Probe(layer, todo[0]);
      if got.None? {
        return false, copies;
      }
      assert Filled(Seen(files[layer]), layer, todo, 0) == Seen(files[layer]);
      assert Protected(layer, todo[0]);
      Store(layer, todo[0], got.value);
      return true, copies;
    }

    ghost function Spent(): Account
      reads this
    {
      Account(bytes, fetched, requests)
    }

    /** From account `a` to account `b`: every block written was delivered and paid once, and a probe,
        of which there is at most one in a run, delivered `surplus` copies more. At most three
        requests go to each of `blocks` blocks, besides the probe's. */
    ghost predicate Paid(a: Account, b: Account, probed: bool, probed': bool, surplus: nat, blocks: nat) {
      var asked := a.requests + if probed' && !probed then |ranker.peers| else 0;
      && a.fetched <= b.fetched && b.bytes == a.bytes + Mul(b.fetched - a.fetched + surplus, blockSize)
      && surplus <= |ranker.peers| && (surplus > 0 ==> !probed && probed' && b.fetched > a.fetched)
      && (probed ==> probed') && (!probed' ==> b == a)
      && asked <= b.requests <= asked + Mul(blocks, TRIES)
    }

    lemma PaidForMore(a: Account, b: Account, probed: bool, probed': bool, surplus: nat, blocks: nat, more: nat)
      requires Paid(a, b, probed, probed', surplus, blocks) && blocks <= more
      ensures Paid(a, b, probed, probed', surplus, more)
    {
      SlotsMonotone(blocks, more, TRIES);
    }

    lemma PaidTwice(a: Account, b: Account, c: Account, p: bool, p': bool, p'': bool, s: nat, s': nat, m: nat, n: nat)
      requires Paid(a, b, p, p', s, m) && Paid(b, c, p', p'', s', n)
      ensures Paid(a, c, p, p'', s + s', m + n)
    {
      MulAdds(b.fetched - a.fetched + s, c.fetched - b.fetched + s', blockSize);
      MulAdds(m, n, TRIES);
    }

    /** Pull what a layer needs, the first block of the run by probing everybody. */
    method PullAll(layer: nat, todo: seq<nat>, probed: bool)
      returns (ok: bool, probed': bool, ghost n: nat, ghost surplus: nat)
      requires Valid() && Pending(layer, todo)
      modifies this, ranker
      ensures Valid() && Pending(layer, todo) && files == old(files)[layer := files[layer]]
      ensures n <= |todo| && (ok ==> n == |todo|) && (Reliable() ==> ok)
      ensures Seen(files[layer]) == Filled(Seen(old(files)[layer]), layer, todo, n)
      ensures fetched == old(fetched) + n && skipped == old(skipped)
      ensures todo == [] ==> ok
      ensures (probed' <==> probed || todo != []) && Paid(old(Spent()), Spent(), probed, probed', surplus, |todo|)
    {
      if todo != [] && !probed {
        var stored;
        ghost var copies;
        stored, copies := ProbeFirst(layer, todo);
        if stored {
          ok, n := Pull(layer, todo[1..]);
          FilledShift(Seen(old(files)[layer]), layer, todo, n);
          MulAdds(copies, n, blockSize);
          SlotsMonotone(|todo| - 1, |todo|, TRIES);
          return ok, true, n + 1, copies - 1;
        }
      }
      ok, n := Pull(layer, todo);
      probed', surplus := probed || todo != [], 0;
    }

    /** One layer: open, check, pull the rest. */
    method FetchLayer(layer: nat, probed: bool) returns (ok: bool, probed': bool, ghost surplus: nat)
      requires Valid() && layer < layers
      modifies this, ranker
      ensures Valid() && layer in files && files == old(files)[layer := files[layer]]
      ensures Changed(At(old(files), layer), files[layer], layer)
      ensures Reliable() ==> ok
      ensures ok ==> Complete(Seen(files[layer]), layer) && fetched + skipped == old(fetched + skipped) + |mine|
      ensures Complete(Seen(Base(At(old(files), layer))), layer) ==> ok && Spent() == old(Spent())
      ensures Paid(old(Spent()), Spent(), probed, probed', surplus, |mine|)
    {
      OpenLayer(layer);
      ghost var base := Seen(files[layer]);
      var todo := Check(layer);
      ghost var n;
      ok, probed', n, surplus := PullAll(layer, todo, probed);
      PaidForMore(old(Spent()), Spent(), probed, probed', surplus, |todo|, |mine|);
      FilledIsSound(base, layer, todo, n);
    }

    /** The next layer of a run, added to what was spent so far. */
    method NextLayer(layer: nat, probed: bool, ghost surplus: nat, ghost start: Account)
      returns (ok: bool, probed': bool, ghost surplus': nat)
      requires Valid() && layer < layers && Paid(start, Spent(), false, probed, surplus, Mul(layer, |mine|))
      modifies this, ranker
      ensures Valid() && layer in files && files == old(files)[layer := files[layer]]
      ensures Changed(At(old(files), layer), files[layer], layer)
      ensures Reliable() ==> ok
      ensures ok ==> Complete(Seen(files[layer]), layer) && fetched + skipped == old(fetched + skipped) + |mine|
      ensures Complete(Seen(Base(At(old(files), layer))), layer) ==> ok && Spent() == old(Spent())
      ensures Paid(start, Spent(), false, probed', surplus', Mul(layer + 1, |mine|))
    {
      ghost var more;
      ok, probed', more := FetchLayer(layer, probed);
      PaidTwice(start, old(Spent()), Spent(), false, probed, probed', surplus, more, Mul(layer, |mine|), |mine|);
      surplus' := surplus + more;
    }

    /** A file of the right size whose blocks are as before, but for owned ones, as published. */
    ghost predicate Changed(before: Option<Bytes>, after: Bytes, layer: nat) {
      FullSize(after) && Sound(Seen(after), Seen(Base(before)), layer)
    }

    ghost predicate LayerInstalled(file: Option<Bytes>, layer: nat) {
      file.Some? && FullSize(file.value) && Complete(Seen(file.value), layer)
    }

    /** Every owned block of every layer is on disk as published. */
    ghost predicate Installed(files: map<nat, Bytes>) {
      forall l: nat :: l < layers ==> LayerInstalled(At(files, l), l)
    }

    /** A layer's file was not touched, or changed in owned blocks only. */
    ghost predicate OthersUntouched(before: Option<Bytes>, after: Option<Bytes>, l: nat) {
      after == before || (l < layers && after.Some? && Changed(before, after.value, l))
    }

    /** The layers below `n` are done and the others as before. */
    ghost predicate DoneBelow(before: map<nat, Bytes>, after: map<nat, Bytes>, n: nat) {
      && (forall l: nat :: l < n ==> LayerInstalled(At(after, l), l) && OthersUntouched(At(before, l), At(after, l), l))
      && (forall l: nat :: n <= l ==> At(after, l) == At(before, l))
    }

    lemma DoneBelowSteps(before: map<nat, Bytes>, mid: map<nat, Bytes>, after: map<nat, Bytes>, n: nat)
      requires n < layers && DoneBelow(before, mid, n) && n in after && after == mid[n := after[n]]
      requires Changed(At(mid, n), after[n], n)
      ensures Complete(Seen(after[n]), n) ==> DoneBelow(before, after, n + 1)
      ensures forall l: nat :: OthersUntouched(At(before, l), At(after, l), l)
    {
      assert forall l: nat :: l != n ==> At(after, l) == At(mid, l);
    }

    /** The whole bill of a run: what was delivered is what was written and the surplus of the probe.
        The probe asks every peer once, each block takes at most three requests more. */
    ghost predicate SpentOnce(requests0: nat, b: Account, surplus: nat) {
      && b.bytes == Mul(b.fetched + surplus, blockSize) && surplus <= |ranker.peers| && (b.fetched == 0 ==> surplus == 0)
      && (b.fetched > 0 ==> b.requests >= requests0 + |ranker.peers|)
      && b.requests <= requests0 + |ranker.peers| + Mul(Mul(layers, |mine|), TRIES)
    }

    lemma RunIsPaid(requests0: nat, b: Account, probed: bool, surplus: nat, blocks: nat)
      requires Paid(Account(0, 0, requests0), b, false, probed, surplus, blocks) && blocks <= Mul(layers, |mine|)
      ensures SpentOnce(requests0, b, surplus)
    {
      SlotsMonotone(blocks, Mul(layers, |mine|), TRIES);
    }

    /** Counters and speeds at the start of a run. */
    method Start()
      requires WellFormed()
      modifies this`fetched, this`skipped, this`bytes, this`delivered, ranker
      ensures Valid() && skipped == 0 && Spent() == Account(0, 0, requests)
    {
      ranker.Forget();
      fetched, skipped, bytes, delivered := 0, 0, 0, map[];
      NoCredits(ranker.peers, |ranker.peers|);
    }

    /** A whole run. Whatever the peers send: a normal return leaves every owned block as
        published, no run touches another machine's block, all blocks are accounted for, and a
        run that starts from an installed partition asks nobody for anything. */
    method Run() returns (ok: bool, ghost surplus: nat)
      requires WellFormed()
      modifies this, ranker
      ensures Valid()
      ensures Reliable() ==> ok
      ensures ok ==> Installed(files) && fetched + skipped == Mul(layers, |mine|)
      ensures forall l: nat :: OthersUntouched(At(old(files), l), At(files, l), l)
      ensures Installed(old(files)) ==> ok && fetched == 0 && bytes == 0 && requests == old(requests)
      ensures SpentOnce(old(requests), Spent(), surplus)
    {
      Start();
      surplus := 0;
      var probed := false;
      for layer := 0 to layers
        invariant Valid() && fetched + skipped == Mul(layer, |mine|) && DoneBelow(old(files), files, layer)
        invariant Installed(old(files)) ==> Spent() == Account(0, 0, old(requests))
        invariant Paid(Account(0, 0, old(requests)), Spent(), false, probed, surplus, Mul(layer, |mine|))
      {
        ghost var mid := files;
        assert At(files, layer) == At(old(files), layer);
        assert Installed(old(files)) ==> LayerInstalled(At(old(files), layer), layer);
        ok, probed, surplus := NextLayer(layer, probed, surplus, Account(0, 0, old(requests)));
        DoneBelowSteps(old(files), mid, files, layer);
        if !ok {
          SlotsMonotone(layer + 1, layers, |mine|);
          RunIsPaid(old(requests), Spent(), probed, surplus, Mul(layer + 1, |mine|));
          return false, surplus;
        }
      }
      RunIsPaid(old(requests), Spent(), probed, surplus, Mul(layers, |mine|));
      return true, surplus;
    }
  }

  lemma {:induction false} NoCredits(peers: seq<NodeId>, n: nat)
    requires n <= |peers|
    ensures Credits(map[], peers, n) == 0
  {
    if n > 0 {
      NoCredits(peers, n - 1);
    }
  }
}
