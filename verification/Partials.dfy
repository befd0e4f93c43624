/**
 One node's share of an expert FFN (`compute_partial`), the single-machine FFN
 (`run_expert_ffn`), and the theorem that the shares add up to the whole.
 */
module Partials {
  import opened Collections

  type Eid = nat

  /** A request for one layer: the active experts, the hidden state, and per token
      slot the routed expert and its weight, flattened. */
  datatype Request<+H, +W> = Request(layer: nat, active: seq<Eid>, hidden: H, inds: seq<Eid>, weights: seq<W>)

  /** The active ids are in order and hold every routed one. A request for a batch lists the
      experts of all its tokens, so a token need not use every active id. */
  ghost predicate WellFormed<H, W>(req: Request<H, W>) {
    && Increasing(req.active) && |req.inds| == |req.weights|
    && (forall e :: e in req.inds ==> e in req.active)
  }

  /** The foreign numerics. `ffn` runs the stacked experts: `rows[j]` selects the expert
      of slot j, `weights[j]` scales it. */
  datatype Kernel<!H, !D, !W, !O> = Kernel(
    ffn: (H, seq<D>, seq<nat>, seq<W>) -> O,
    mask: (W, bool) -> W,
    zeros: H -> O)

  /** Position of the last occurrence, as `lut[ids] = arange(len(ids))` leaves it. */
  function LastIndex(ids: seq<Eid>, e: Eid): (i: nat)
    ensures e in ids ==> i < |ids| && ids[i] == e
    ensures e !in ids ==> i == 0
  {
    if ids == [] then 0
    else if ids[|ids| - 1] == e then |ids| - 1
    else LastIndex(ids[..|ids| - 1], e)
  }

  /** The experts of the request that a node owns and has loaded. */
  function MyIds<D>(loaded: map<Eid, D>, partition: set<Eid>, active: seq<Eid>): (ids: seq<Eid>)
    ensures forall e :: e in ids <==> e in active && e in partition && e in loaded
  {
    Filter((e: Eid) => e in partition && e in loaded, active)
  }

  /** The index arrays fit: no lookup leaves a table of `numExperts` entries. */
  predicate InRange<H, W>(partition: set<Eid>, numExperts: nat, req: Request<H, W>) {
    && (forall e :: e in partition ==> e < numExperts)
    && (forall e :: e in req.active ==> e < numExperts)
    && (forall e :: e in req.inds ==> e < numExperts)
  }

  function LookupTable(ids: seq<Eid>, numExperts: nat): (lut: seq<nat>)
    ensures |lut| == numExperts
  {
    seq(numExperts, e requires 0 <= e < numExperts => LastIndex(ids, e))
  }

  function Gather(lut: seq<nat>, inds: seq<Eid>): (rows: seq<nat>)
    requires forall j :: 0 <= j < |inds| ==> inds[j] < |lut|
    ensures |rows| == |inds| && forall j :: 0 <= j < |inds| ==> rows[j] == lut[inds[j]]
  {
    seq(|inds|, j requires 0 <= j < |inds| => lut[inds[j]])
  }

  function MaskWeights<W>(mask: (W, bool) -> W, weights: seq<W>, inds: seq<Eid>, partition: set<Eid>): (masked: seq<W>)
    requires |weights| == |inds|
    ensures |masked| == |inds| && forall j :: 0 <= j < |inds| ==> masked[j] == mask(weights[j], inds[j] in partition)
  {
    seq(|inds|, j requires 0 <= j < |inds| => mask(weights[j], inds[j] in partition))
  }

  function Stack<D>(data: map<Eid, D>, ids: seq<Eid>): (stack: seq<D>)
    requires forall i :: 0 <= i < |ids| ==> ids[i] in data
    ensures |stack| == |ids| && forall i :: 0 <= i < |ids| ==> stack[i] == data[ids[i]]
  {
    seq(|ids|, i requires 0 <= i < |ids| => data[ids[i]])
  }

  function ComputePartial<H, D, W, O>(k: Kernel<H, D, W, O>, loaded: map<Eid, D>, partition: set<Eid>,
                                      numExperts: nat, req: Request<H, W>): (r: (nat, O))
    requires InRange(partition, numExperts, req) && |req.inds| == |req.weights|
  {
    var ids := MyIds(loaded, partition, req.active);
    if ids == [] then (0, k.zeros(req.hidden))
    else
      assert forall i :: 0 <= i < |ids| ==> ids[i] in ids;
      assert forall j :: 0 <= j < |req.inds| ==> req.inds[j] in req.inds;
      var rows := Gather(LookupTable(ids, numExperts), req.inds);
      var masked := MaskWeights(k.mask, req.weights, req.inds, partition);
      var stack := Stack(loaded, ids);
      (|ids|, k.ffn(req.hidden, stack, rows, masked))
  }

  /** The number reported is that of the requested experts the node owns and has loaded. */
  lemma ComputedAreOwned<H, D, W, O>(k: Kernel<H, D, W, O>, loaded: map<Eid, D>, partition: set<Eid>,
                                     numExperts: nat, req: Request<H, W>, computed: set<Eid>)
    requires InRange(partition, numExperts, req) && |req.inds| == |req.weights| && Increasing(req.active)
    requires forall e :: e in computed <==> e in req.active && e in partition && e in loaded
    ensures ComputePartial(k, loaded, partition, numExperts, req).0 == |computed|
  {
    var owned := (e: Eid) => e in partition && e in loaded;
    FilterCongruence(owned, (e: Eid) => e in partition && e in loaded, req.active);
    assert MyIds(loaded, partition, req.active) == Filter(owned, req.active);
    FilterCounts(owned, req.active, computed);
  }

  /** The lookup table sends every owned id to its own stacked row. */
  lemma LookupFindsOwnRow<D>(loaded: map<Eid, D>, partition: set<Eid>, active: seq<Eid>, numExperts: nat, e: Eid)
    requires e < numExperts
    ensures var ids := MyIds(loaded, partition, active);
      var row := LookupTable(ids, numExperts)[e];
      if e in active && e in partition && e in loaded then row < |ids| && ids[row] == e else row == 0
  {
  }

  /** A partial depends on the partition only through the request's own experts, on
      the loaded blocks only through the experts it computes, and not on `numExperts`. */
  lemma PartialIsLocal<H, D, W, O>(k: Kernel<H, D, W, O>, loaded: map<Eid, D>, partition: set<Eid>, n: nat,
                                   loaded': map<Eid, D>, partition': set<Eid>, n': nat, req: Request<H, W>)
    requires WellFormed(req) && InRange(partition, n, req) && InRange(partition', n', req)
    requires forall e :: e in req.active ==> (e in partition <==> e in partition')
    requires forall e :: e in req.active && e in partition ==> (e in loaded <==> e in loaded')
    requires forall e :: e in req.active && e in partition && e in loaded ==> loaded[e] == loaded'[e]
    ensures ComputePartial(k, loaded, partition, n, req) == ComputePartial(k, loaded', partition', n', req)
  {
    var ids, ids' := MyIds(loaded, partition, req.active), MyIds(loaded', partition', req.active);
    FilterCongruence((e: Eid) => e in partition && e in loaded, (e: Eid) => e in partition' && e in loaded', req.active);
    assert ids == ids';
    if ids != [] {
      var inds := req.inds;
      assert forall i :: 0 <= i < |ids| ==> ids[i] in ids;
      assert forall j :: 0 <= j < |inds| ==> inds[j] in inds;
      assert Gather(LookupTable(ids, n), inds) == Gather(LookupTable(ids, n'), inds);
      assert MaskWeights(k.mask, req.weights, inds, partition) == MaskWeights(k.mask, req.weights, inds, partition');
      assert Stack(loaded, ids) == Stack(loaded', ids);
    }
  }

  /******* Exact arithmetic: the shares add up *******/

  /** One output coordinate of one expert, before weighting. */
  type Expert<!H, !D> = (D, H) -> real

  /** The weighted sum of the selected experts over the slots of one token. */
  function WeightedSum<H, D>(f: Expert<H, D>, h: H, stack: seq<D>, rows: seq<nat>, weights: seq<real>): real {
    if |rows| == 0 || |weights| != |rows| then 0.0
    else
      var n := |rows| - 1;
      (if rows[n] < |stack| then weights[n] * f(stack[rows[n]], h) else 0.0)
      + WeightedSum(f, h, stack, rows[..n], weights[..n])
  }

  function ExactKernel<H, D>(f: Expert<H, D>): Kernel<H, D, real, real> {
    Kernel(
      (h: H, stack: seq<D>, rows: seq<nat>, weights: seq<real>) => WeightedSum(f, h, stack, rows, weights),
      (w: real, own: bool) => if own then w else 0.0,
      (h: H) => 0.0)
  }

  function LocalRows(ids: seq<Eid>, inds: seq<Eid>): (rows: seq<nat>)
    ensures |rows| == |inds| && forall j :: 0 <= j < |inds| ==> rows[j] == LastIndex(ids, inds[j])
  {
    seq(|inds|, j requires 0 <= j < |inds| => LastIndex(ids, inds[j]))
  }

  /** The single-machine FFN over all active experts; an unknown id would select row 0. */
  function RunExpertFfn<H, D>(f: Expert<H, D>, data: map<Eid, D>, req: Request<H, real>): real
    requires forall e :: e in req.active ==> e in data
  {
    assert forall i :: 0 <= i < |req.active| ==> req.active[i] in req.active;
    WeightedSum(f, req.hidden, Stack(data, req.active), LocalRows(req.active, req.inds), req.weights)
  }

  /** What the slots routed to `owned` contribute. */
  ghost function Contribution<H, D>(f: Expert<H, D>, h: H, data: map<Eid, D>, owned: set<Eid>,
                                    inds: seq<Eid>, weights: seq<real>): real
    requires |inds| == |weights| && forall e :: e in inds ==> e in data
  {
    if inds == [] then 0.0
    else
      var n := |inds| - 1;
      (if inds[n] in owned then weights[n] * f(data[inds[n]], h) else 0.0)
      + Contribution(f, h, data, owned, inds[..n], weights[..n])
  }

  lemma {:induction false} ContributionsAdd<H, D>(f: Expert<H, D>, h: H, data: map<Eid, D>, a: set<Eid>, b: set<Eid>,
                                                  inds: seq<Eid>, weights: seq<real>)
    requires |inds| == |weights| && a !! b
    requires forall e :: e in inds ==> e in data
    ensures Contribution(f, h, data, a + b, inds, weights)
         == Contribution(f, h, data, a, inds, weights) + Contribution(f, h, data, b, inds, weights)
  {
    if inds != [] {
      ContributionsAdd(f, h, data, a, b, inds[..|inds| - 1], weights[..|inds| - 1]);
    }
  }

  /** A stacked, masked sum is the contribution of the owned slots. */
  lemma {:induction false} StackedIsContribution<H, D>(
      f: Expert<H, D>, h: H, data: map<Eid, D>, owned: set<Eid>, inds: seq<Eid>, weights: seq<real>,
      stack: seq<D>, rows: seq<nat>, masked: seq<real>)
    requires |inds| == |weights| == |rows| == |masked|
    requires forall e :: e in inds ==> e in data
    requires forall j :: 0 <= j < |inds| ==> masked[j] == if inds[j] in owned then weights[j] else 0.0
    requires forall j :: 0 <= j < |inds| && inds[j] in owned ==> rows[j] < |stack| && stack[rows[j]] == data[inds[j]]
    ensures WeightedSum(f, h, stack, rows, masked) == Contribution(f, h, data, owned, inds, weights)
  {
    if inds != [] {
      var n := |inds| - 1;
      StackedIsContribution(f, h, data, owned, inds[..n], weights[..n], stack, rows[..n], masked[..n]);
      assert inds[n] !in owned ==> masked[n] == 0.0;
    }
  }

  /** What a node holds: the experts it answers for and the blocks it has loaded. */
  datatype Node<+D> = Node(partition: set<Eid>, loaded: map<Eid, D>)

  /** The node has loaded the active experts of its partition, as the model has them. */
  ghost predicate Serves<D>(node: Node<D>, data: map<Eid, D>, active: seq<Eid>) {
    forall e :: e in active && e in node.partition ==> e in data && e in node.loaded && node.loaded[e] == data[e]
  }

  function NodePartial<H, D>(f: Expert<H, D>, node: Node<D>, numExperts: nat, req: Request<H, real>): real
    requires WellFormed(req) && InRange(node.partition, numExperts, req)
  {
    ComputePartial(ExactKernel(f), node.loaded, node.partition, numExperts, req).1
  }

  /** A node's partial is what the slots routed to its partition contribute. */
  lemma PartialIsContribution<H, D>(f: Expert<H, D>, data: map<Eid, D>, node: Node<D>, numExperts: nat, req: Request<H, real>)
    requires WellFormed(req) && InRange(node.partition, numExperts, req) && Serves(node, data, req.active)
    requires forall e :: e in req.active ==> e in data
    ensures NodePartial(f, node, numExperts, req)
         == Contribution(f, req.hidden, data, node.partition, req.inds, req.weights)
  {
    var k := ExactKernel(f);
    var inds, n := req.inds, |req.inds|;
    var ids := MyIds(node.loaded, node.partition, req.active);
    assert forall j :: 0 <= j < n ==> inds[j] in inds;
    if ids == [] {
      var none := seq(n, j requires 0 <= j < n => 0.0);
      var rows := seq(n, j requires 0 <= j < n => 0);
      assert forall e :: e in inds ==> e !in node.partition;
      StackedIsContribution(f, req.hidden, data, node.partition, inds, req.weights, [], rows, none);
      ZeroWeights(f, req.hidden, rows);
    } else {
      assert forall i :: 0 <= i < |ids| ==> ids[i] in ids;
      StackedIsContribution(f, req.hidden, data, node.partition, inds, req.weights, Stack(node.loaded, ids),
        Gather(LookupTable(ids, numExperts), inds), MaskWeights(k.mask, req.weights, inds, node.partition));
    }
  }

  lemma {:induction false} ZeroWeights<H, D>(f: Expert<H, D>, h: H, rows: seq<nat>)
    ensures WeightedSum(f, h, [], rows, seq(|rows|, j requires 0 <= j < |rows| => 0.0)) == 0.0
  {
    if rows != [] {
      var zeros := seq(|rows|, j requires 0 <= j < |rows| => 0.0);
      var n := |rows| - 1;
      ZeroWeights(f, h, rows[..n]);
      assert zeros[..n] == seq(n, j requires 0 <= j < n => 0.0);
    }
  }

  /** The nodes' partitions do not overlap, and every active expert is in one of them. */
  ghost predicate Cover<D>(nodes: seq<Node<D>>, active: seq<Eid>) {
    && (forall u, v :: 0 <= u < v < |nodes| ==> nodes[u].partition !! nodes[v].partition)
    && (forall e :: e in active ==> e in Owned(nodes, |nodes|))
  }

  /** All experts of the first `n` nodes. */
  ghost function Owned<D>(nodes: seq<Node<D>>, n: nat): (all: set<Eid>)
    requires n <= |nodes|
    ensures forall e :: e in all <==> exists u :: 0 <= u < n && e in nodes[u].partition
  {
    if n == 0 then {} else Owned(nodes, n - 1) + nodes[n - 1].partition
  }

  /** The tables hold every id. */
  predicate Fit<D>(nodes: seq<Node<D>>, active: seq<Eid>, numExperts: nat) {
    && (forall e :: e in active ==> e < numExperts)
    && (forall u :: 0 <= u < |nodes| ==> forall e :: e in nodes[u].partition ==> e < numExperts)
  }

  function SumReals(s: seq<real>, n: nat): real
    requires n <= |s|
  {
    if n == 0 then 0.0 else SumReals(s, n - 1) + s[n - 1]
  }

  function NodePartials<H, D>(f: Expert<H, D>, nodes: seq<Node<D>>, numExperts: nat, req: Request<H, real>): (r: seq<real>)
    requires WellFormed(req) && Fit(nodes, req.active, numExperts)
    ensures |r| == |nodes| && forall u :: 0 <= u < |nodes| ==> r[u] == NodePartial(f, nodes[u], numExperts, req)
  {
    seq(|nodes|, u requires 0 <= u < |nodes| => NodePartial(f, nodes[u], numExperts, req))
  }

  /** The driver's sum: the nodes' partials in node order. */
  function SumOfPartials<H, D>(f: Expert<H, D>, nodes: seq<Node<D>>, numExperts: nat, req: Request<H, real>): real
    requires WellFormed(req) && Fit(nodes, req.active, numExperts)
  {
    SumReals(NodePartials(f, nodes, numExperts, req), |nodes|)
  }

  /** The contributions of disjoint partitions add up to that of their union. */
  lemma {:induction false} SumIsContribution<H, D>(f: Expert<H, D>, h: H, data: map<Eid, D>, nodes: seq<Node<D>>, n: nat,
                                                   ones: seq<real>, inds: seq<Eid>, weights: seq<real>)
    requires n <= |nodes| == |ones| && |inds| == |weights| && forall e :: e in inds ==> e in data
    requires forall u, v :: 0 <= u < v < |nodes| ==> nodes[u].partition !! nodes[v].partition
    requires forall u :: 0 <= u < |nodes| ==> ones[u] == Contribution(f, h, data, nodes[u].partition, inds, weights)
    ensures SumReals(ones, n) == Contribution(f, h, data, Owned(nodes, n), inds, weights)
  {
    if n == 0 {
      NoContribution(f, h, data, inds, weights);
    } else {
      SumIsContribution(f, h, data, nodes, n - 1, ones, inds, weights);
      ContributionsAdd(f, h, data, Owned(nodes, n - 1), nodes[n - 1].partition, inds, weights);
    }
  }

  lemma {:induction false} NoContribution<H, D>(f: Expert<H, D>, h: H, data: map<Eid, D>, inds: seq<Eid>, weights: seq<real>)
    requires |inds| == |weights| && forall e :: e in inds ==> e in data
    ensures Contribution(f, h, data, {}, inds, weights) == 0.0
  {
    if inds != [] {
      NoContribution(f, h, data, inds[..|inds| - 1], weights[..|inds| - 1]);
    }
  }

  /** The single-machine FFN is the contribution of any experts that hold all active ones. */
  lemma WholeIsContribution<H, D>(f: Expert<H, D>, data: map<Eid, D>, all: set<Eid>, req: Request<H, real>)
    requires WellFormed(req) && forall e :: e in req.active ==> e in data && e in all
    ensures RunExpertFfn(f, data, req) == Contribution(f, req.hidden, data, all, req.inds, req.weights)
  {
    assert forall i :: 0 <= i < |req.active| ==> req.active[i] in req.active;
    assert forall j :: 0 <= j < |req.inds| ==> req.inds[j] in req.inds;
    StackedIsContribution(f, req.hidden, data, all, req.inds, req.weights,
      Stack(data, req.active), LocalRows(req.active, req.inds), req.weights);
  }

  /** Disjoint partitions that cover the active experts sum to the single-machine result. */
  lemma PartialsSumToWhole<H, D>(f: Expert<H, D>, data: map<Eid, D>, nodes: seq<Node<D>>, numExperts: nat,
                                 req: Request<H, real>)
    requires WellFormed(req) && Fit(nodes, req.active, numExperts) && Cover(nodes, req.active)
    requires forall u :: 0 <= u < |nodes| ==> Serves(nodes[u], data, req.active)
    requires forall e :: e in req.active ==> e in data
    ensures SumOfPartials(f, nodes, numExperts, req) == RunExpertFfn(f, data, req)
  {
    var ones := NodePartials(f, nodes, numExperts, req);
    forall u | 0 <= u < |nodes|
      ensures ones[u] == Contribution(f, req.hidden, data, nodes[u].partition, req.inds, req.weights)
    {
      PartialIsContribution(f, data, nodes[u], numExperts, req);
    }
    SumIsContribution(f, req.hidden, data, nodes, |nodes|, ones, req.inds, req.weights);
    WholeIsContribution(f, data, Owned(nodes, |nodes|), req);
  }
}
