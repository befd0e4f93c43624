/**
 Batches in the Expert Network: one request carries many tokens and lists the experts of all
 of them, so every node stacks experts that a single token may not use.
 */
module Batches {
  import opened Arithmetic
  import opened Collections
  import opened Partials

  /** One token of a batch: its hidden state and its own slots. */
  datatype Token<+H> = Token(hidden: H, inds: seq<Eid>, weights: seq<real>)

  function Hiddens<H>(tokens: seq<Token<H>>): (hs: seq<H>)
    ensures |hs| == |tokens| && forall i :: 0 <= i < |tokens| ==> hs[i] == tokens[i].hidden
  {
    seq(|tokens|, i requires 0 <= i < |tokens| => tokens[i].hidden)
  }

  function FlatInds<H>(tokens: seq<Token<H>>, n: nat): seq<Eid>
    requires n <= |tokens|
  {
    if n == 0 then [] else FlatInds(tokens, n - 1) + tokens[n - 1].inds
  }

  function FlatWeights<H>(tokens: seq<Token<H>>, n: nat): seq<real>
    requires n <= |tokens|
  {
    if n == 0 then [] else FlatWeights(tokens, n - 1) + tokens[n - 1].weights
  }

  /** The request a batch is sent as. */
  function BatchRequest<H>(layer: nat, active: seq<Eid>, tokens: seq<Token<H>>): Request<seq<H>, real> {
    Request(layer, active, Hiddens(tokens), FlatInds(tokens, |tokens|), FlatWeights(tokens, |tokens|))
  }

  /** One token of it, as a request of its own with the shared active ids. */
  function TokenRequest<H>(layer: nat, active: seq<Eid>, token: Token<H>): Request<H, real> {
    Request(layer, active, token.hidden, token.inds, token.weights)
  }

  ghost predicate TokenOf<H>(active: seq<Eid>, token: Token<H>, k: nat) {
    |token.inds| == |token.weights| == k && forall e :: e in token.inds ==> e in active
  }

  /** The active ids hold those of every token, and every token has `k` slots. */
  ghost predicate BatchOf<H>(active: seq<Eid>, tokens: seq<Token<H>>, k: nat) {
    Increasing(active) && forall i :: 0 <= i < |tokens| ==> TokenOf(active, tokens[i], k)
  }

  /** The `i`-th group of `k` slots. */
  function Cut<T>(s: seq<T>, i: nat, k: nat): seq<T> {
    if Mul(i, k) + k <= |s| then s[Mul(i, k)..Mul(i, k) + k] else []
  }

  lemma CutFront<T>(a: seq<T>, b: seq<T>, i: nat, k: nat)
    requires Mul(i, k) + k <= |a|
    ensures Cut(a + b, i, k) == Cut(a, i, k)
  {
  }

  lemma CutEnd<T>(a: seq<T>, b: seq<T>, i: nat, k: nat)
    requires |a| == Mul(i, k) && |b| == k
    ensures Cut(a + b, i, k) == b
  {
  }

  /** Rows and masks are computed slot by slot, so they can be cut before or after. */
  lemma CutGather(lut: seq<nat>, inds: seq<Eid>, i: nat, k: nat)
    requires forall j :: 0 <= j < |inds| ==> inds[j] < |lut|
    requires Mul(i, k) + k <= |inds|
    ensures forall j :: 0 <= j < |Cut(inds, i, k)| ==> Cut(inds, i, k)[j] < |lut|
    ensures Cut(Gather(lut, inds), i, k) == Gather(lut, Cut(inds, i, k))
  {
  }

  lemma CutRows(ids: seq<Eid>, inds: seq<Eid>, i: nat, k: nat)
    requires Mul(i, k) + k <= |inds|
    ensures Cut(LocalRows(ids, inds), i, k) == LocalRows(ids, Cut(inds, i, k))
  {
  }

  lemma CutMask(mask: (real, bool) -> real, mask': (real, bool) -> real, weights: seq<real>, inds: seq<Eid>,
                partition: set<Eid>, i: nat, k: nat)
    requires |weights| == |inds| && Mul(i, k) + k <= |inds| && forall w, own :: mask(w, own) == mask'(w, own)
    ensures Cut(MaskWeights(mask, weights, inds, partition), i, k)
         == MaskWeights(mask', Cut(weights, i, k), Cut(inds, i, k), partition)
  {
    var x, y := Cut(MaskWeights(mask, weights, inds, partition), i, k), MaskWeights(mask', Cut(weights, i, k), Cut(inds, i, k), partition);
    var at := Mul(i, k);
    forall j | 0 <= j < k
      ensures x[j] == y[j]
    {
      var w, own := weights[at + j], inds[at + j] in partition;
      assert x[j] == mask(w, own) && y[j] == mask'(w, own);
      assert mask(w, own) == mask'(w, own);
    }
  }

  /** The exact kernel over a batch: one output per token, from its own slots. */
  function BatchKernel<H, D>(f: Expert<H, D>, k: nat): Kernel<seq<H>, D, real, seq<real>> {
    Kernel(
      (hs: seq<H>, stack: seq<D>, rows: seq<nat>, weights: seq<real>) => TokenSums(f, hs, stack, rows, weights, k),
      (w: real, own: bool) => if own then w else 0.0,
      (hs: seq<H>) => seq(|hs|, _ => 0.0))
  }

  function TokenSums<H, D>(f: Expert<H, D>, hs: seq<H>, stack: seq<D>, rows: seq<nat>, weights: seq<real>, k: nat): (sums: seq<real>)
    ensures |sums| == |hs|
  {
    seq(|hs|, i requires 0 <= i < |hs| => WeightedSum(f, hs[i], stack, Cut(rows, i, k), Cut(weights, i, k)))
  }

  lemma {:induction false} FlatLengths<H>(active: seq<Eid>, tokens: seq<Token<H>>, k: nat, n: nat)
    requires BatchOf(active, tokens, k) && n <= |tokens|
    ensures |FlatInds(tokens, n)| == |FlatWeights(tokens, n)| == Mul(n, k)
    ensures forall e :: e in FlatInds(tokens, n) ==> e in active
  {
    if n > 0 {
      FlatLengths(active, tokens, k, n - 1);
      assert TokenOf(active, tokens[n - 1], k);
    }
  }

  /** The i-th group of slots is the i-th token's. */
  lemma {:induction false} TokenSlots<H>(active: seq<Eid>, tokens: seq<Token<H>>, k: nat, n: nat, i: nat)
    requires BatchOf(active, tokens, k) && i < n <= |tokens|
    ensures |FlatInds(tokens, n)| == |FlatWeights(tokens, n)| == Mul(n, k) >= Mul(i, k) + k
    ensures Cut(FlatInds(tokens, n), i, k) == tokens[i].inds && Cut(FlatWeights(tokens, n), i, k) == tokens[i].weights
  {
    FlatLengths(active, tokens, k, n);
    FlatLengths(active, tokens, k, n - 1);
    SlotsDisjoint(i, n, k);
    var last := tokens[n - 1];
    assert TokenOf(active, last, k);
    if i == n - 1 {
      CutEnd(FlatInds(tokens, i), last.inds, i, k);
      CutEnd(FlatWeights(tokens, i), last.weights, i, k);
    } else {
      TokenSlots(active, tokens, k, n - 1, i);
      CutFront(FlatInds(tokens, n - 1), last.inds, i, k);
      CutFront(FlatWeights(tokens, n - 1), last.weights, i, k);
    }
  }

  /** A batch is a well-formed request, and so is each of its tokens. */
  lemma BatchIsWellFormed<H>(layer: nat, active: seq<Eid>, tokens: seq<Token<H>>, k: nat)
    requires BatchOf(active, tokens, k)
    ensures WellFormed(BatchRequest(layer, active, tokens))
    ensures forall i :: 0 <= i < |tokens| ==> WellFormed(TokenRequest(layer, active, tokens[i]))
  {
    FlatLengths(active, tokens, k, |tokens|);
    forall i | 0 <= i < |tokens|
      ensures WellFormed(TokenRequest(layer, active, tokens[i]))
    {
      assert TokenOf(active, tokens[i], k);
    }
  }

  /** A node's answer to a batch. */
  function NodeBatch<H, D>(f: Expert<H, D>, node: Node<D>, numExperts: nat, req: Request<seq<H>, real>, k: nat): seq<real>
    requires WellFormed(req) && InRange(node.partition, numExperts, req)
  {
    ComputePartial(BatchKernel(f, k), node.loaded, node.partition, numExperts, req).1
  }

  /** It is, token by token, its partial of that token. */
  lemma BatchPartialByToken<H, D>(f: Expert<H, D>, node: Node<D>, numExperts: nat, layer: nat, active: seq<Eid>,
                                  tokens: seq<Token<H>>, k: nat, i: nat)
    requires BatchOf(active, tokens, k) && i < |tokens|
    requires (forall e :: e in active ==> e < numExperts) && (forall e :: e in node.partition ==> e < numExperts)
    ensures WellFormed(BatchRequest(layer, active, tokens)) && WellFormed(TokenRequest(layer, active, tokens[i]))
    ensures var batch := NodeBatch(f, node, numExperts, BatchRequest(layer, active, tokens), k);
      |batch| == |tokens| && batch[i] == NodePartial(f, node, numExperts, TokenRequest(layer, active, tokens[i]))
  {
    var req, one := BatchRequest(layer, active, tokens), TokenRequest(layer, active, tokens[i]);
    BatchIsWellFormed(layer, active, tokens, k);
    TokenSlots(active, tokens, k, |tokens|, i);
    var ids := MyIds(node.loaded, node.partition, active);
    if ids != [] {
      assert forall j :: 0 <= j < |req.inds| ==> req.inds[j] in req.inds;
      CutGather(LookupTable(ids, numExperts), req.inds, i, k);
      CutMask(BatchKernel<H, D>(f, k).mask, ExactKernel<H, D>(f).mask, req.weights, req.inds, node.partition, i, k);
    }
  }

  /** The single-machine FFN of a batch: one stack over all active experts. */
  function RunBatch<H, D>(f: Expert<H, D>, data: map<Eid, D>, req: Request<seq<H>, real>, k: nat): seq<real>
    requires forall e :: e in req.active ==> e in data
  {
    assert forall i :: 0 <= i < |req.active| ==> req.active[i] in req.active;
    TokenSums(f, req.hidden, Stack(data, req.active), LocalRows(req.active, req.inds), req.weights, k)
  }

  lemma RunBatchByToken<H, D>(f: Expert<H, D>, data: map<Eid, D>, layer: nat, active: seq<Eid>,
                              tokens: seq<Token<H>>, k: nat, i: nat)
    requires BatchOf(active, tokens, k) && i < |tokens| && forall e :: e in active ==> e in data
    ensures var batch := RunBatch(f, data, BatchRequest(layer, active, tokens), k);
      |batch| == |tokens| && batch[i] == RunExpertFfn(f, data, TokenRequest(layer, active, tokens[i]))
  {
    TokenSlots(active, tokens, k, |tokens|, i);
    CutRows(active, FlatInds(tokens, |tokens|), i, k);
  }

  function Added(a: seq<real>, b: seq<real>): (sum: seq<real>)
    ensures |sum| == |a|
  {
    seq(|a|, i requires 0 <= i < |a| => a[i] + if i < |b| then b[i] else 0.0)
  }

  /** Arrays of `length` numbers added one after the other. */
  function SumArrays(arrays: seq<seq<real>>, length: nat, n: nat): (sum: seq<real>)
    requires n <= |arrays|
    ensures |sum| == length
  {
    if n == 0 then seq(length, _ => 0.0) else Added(SumArrays(arrays, length, n - 1), arrays[n - 1])
  }

  lemma {:induction false} SumAt(arrays: seq<seq<real>>, length: nat, ones: seq<real>, n: nat, i: nat)
    requires n <= |arrays| == |ones| && i < length
    requires forall u :: 0 <= u < |arrays| ==> i < |arrays[u]| && arrays[u][i] == ones[u]
    ensures SumArrays(arrays, length, n)[i] == SumReals(ones, n)
  {
    if n > 0 {
      SumAt(arrays, length, ones, n - 1, i);
    }
  }

  /** The nodes' answers to a batch. */
  function BatchPartials<H, D>(f: Expert<H, D>, nodes: seq<Node<D>>, numExperts: nat, req: Request<seq<H>, real>, k: nat): (r: seq<seq<real>>)
    requires WellFormed(req) && Fit(nodes, req.active, numExperts)
    ensures |r| == |nodes| && forall u :: 0 <= u < |nodes| ==> r[u] == NodeBatch(f, nodes[u], numExperts, req, k)
  {
    seq(|nodes|, u requires 0 <= u < |nodes| => NodeBatch(f, nodes[u], numExperts, req, k))
  }

  /** The driver's sum of a batch: the answers added in node order. */
  function SumOfBatch<H, D>(f: Expert<H, D>, nodes: seq<Node<D>>, numExperts: nat, req: Request<seq<H>, real>, k: nat): (sum: seq<real>)
    requires WellFormed(req) && Fit(nodes, req.active, numExperts)
    ensures |sum| == |req.hidden|
  {
    SumArrays(BatchPartials(f, nodes, numExperts, req, k), |req.hidden|, |nodes|)
  }

  /** At each token the sum of a batch is the sum of that token's partials. */
  lemma SumByToken<H, D>(f: Expert<H, D>, nodes: seq<Node<D>>, numExperts: nat, layer: nat, active: seq<Eid>,
                         tokens: seq<Token<H>>, k: nat, i: nat)
    requires BatchOf(active, tokens, k) && i < |tokens| && Fit(nodes, active, numExperts)
    ensures WellFormed(BatchRequest(layer, active, tokens)) && WellFormed(TokenRequest(layer, active, tokens[i]))
    ensures SumOfBatch(f, nodes, numExperts, BatchRequest(layer, active, tokens), k)[i]
         == SumOfPartials(f, nodes, numExperts, TokenRequest(layer, active, tokens[i]))
  {
    BatchIsWellFormed(layer, active, tokens, k);
    var req, one := BatchRequest(layer, active, tokens), TokenRequest(layer, active, tokens[i]);
    var arrays := BatchPartials(f, nodes, numExperts, req, k);
    var ones := NodePartials(f, nodes, numExperts, one);
    forall u | 0 <= u < |nodes|
      ensures i < |arrays[u]| && arrays[u][i] == ones[u]
    {
      BatchPartialByToken(f, nodes[u], numExperts, layer, active, tokens, k, i);
    }
    SumAt(arrays, |tokens|, ones, |nodes|, i);
  }

  /** For every token of every batch, disjoint loaded partitions that cover the active
      experts sum to what one machine computes for the batch. */
  lemma BatchSumsToWhole<H, D>(f: Expert<H, D>, data: map<Eid, D>, nodes: seq<Node<D>>, numExperts: nat,
                               layer: nat, active: seq<Eid>, tokens: seq<Token<H>>, k: nat)
    requires BatchOf(active, tokens, k) && Fit(nodes, active, numExperts) && Cover(nodes, active)
    requires forall u :: 0 <= u < |nodes| ==> Serves(nodes[u], data, active)
    requires forall e :: e in active ==> e in data
    ensures WellFormed(BatchRequest(layer, active, tokens))
    ensures SumOfBatch(f, nodes, numExperts, BatchRequest(layer, active, tokens), k)
         == RunBatch(f, data, BatchRequest(layer, active, tokens), k)
  {
    BatchIsWellFormed(layer, active, tokens, k);
    var req := BatchRequest(layer, active, tokens);
    var sum, whole := SumOfBatch(f, nodes, numExperts, req, k), RunBatch(f, data, req, k);
    forall i | 0 <= i < |tokens|
      ensures sum[i] == whole[i]
    {
      SumByToken(f, nodes, numExperts, layer, active, tokens, k, i);
      RunBatchByToken(f, data, layer, active, tokens, k, i);
      PartialsSumToWhole(f, data, nodes, numExperts, TokenRequest(layer, active, tokens[i]));
    }
  }
}
