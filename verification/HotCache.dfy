/**
 The driver-side hot-expert cache of the Expert Network. A node's round trip may be
 skipped only when the driver can produce that node's float16 partial bit for bit;
 block fetches and evictions run on other threads meanwhile.

 Float arrays are their bit patterns, and every float operation is a parameter: what
 is proved holds for all of them, so no rounding is assumed away.
 */
module HotCache {
  import opened Collections
  import opened Partials

  type Url = string
  type Bits = seq<int>
  type Data = seq<int>
  datatype Key = Key(layer: nat, eid: Eid)
  type Req = Request<Bits, int>

  /** The float operations: a node's FFN, float32 widening and addition, the final cast. */
  datatype Numerics = Numerics(
    kernel: Kernel<Bits, Data, int, Bits>,
    widen: Bits -> Bits,
    add: (Bits, Bits) -> Bits,
    narrow: Bits -> Bits)

  /** The expert nodes. A node keeps its partition for its lifetime, and any two nodes
      that hold a block hold the published one. */
  datatype Network = Network(nodes: seq<Url>, serves: Url -> set<Eid>, block: (nat, Eid) -> Data, numExperts: nat) {

    ghost predicate Valid() {
      && nodes != []
      && (forall u, v :: u in nodes && v in nodes && u != v ==> serves(u) !! serves(v))
      && (forall u, e :: u in nodes && e in serves(u) ==> e < numExperts)
    }

    ghost predicate Accepts(req: Req) {
      WellFormed(req) && req.active != [] && forall e :: e in req.active ==> e < numExperts
    }

    ghost predicate Serves(u: Url, e: Eid) {
      u in nodes && e in serves(u)
    }

    function Loaded(ids: set<Eid>, layer: nat): (experts: map<Eid, Data>)
      ensures experts.Keys == ids && forall e :: e in ids ==> experts[e] == block(layer, e)
    {
      map e | e in ids :: block(layer, e)
    }

    /** What node `u` answers to a compute request. */
    function NodePartial(num: Numerics, u: Url, req: Req): Bits
      requires Valid() && Accepts(req) && u in nodes
    {
      ComputePartial(num.kernel, Loaded(serves(u), req.layer), serves(u), numExperts, req).1
    }

    /** The result without any cache: every node's partial, summed in node order. */
    function Reference(num: Numerics, req: Req): Bits
      requires Valid() && Accepts(req)
    {
      num.narrow(SumInOrder(num, Partials(num, req), |nodes|))
    }

    /** The tables after the first `n` nodes were asked for their partitions. */
    function LearnedOwner(owner: map<Eid, Option<Url>>, answers: set<Url>, n: nat): map<Eid, Option<Url>>
      requires n <= |nodes|
    {
      if n == 0 then owner
      else
        var before, u := LearnedOwner(owner, answers, n - 1), nodes[n - 1];
        if u in answers then before + map e | e in serves(u) :: Some(u) else before
    }

    function LearnedPartition(partition: map<Url, set<Eid>>, answers: set<Url>, n: nat): map<Url, set<Eid>>
      requires n <= |nodes|
    {
      if n == 0 then partition
      else
        var before, u := LearnedPartition(partition, answers, n - 1), nodes[n - 1];
        if u in answers then before[u := serves(u)] else before
    }

    /** Every node that answered has its whole partition recorded and owns all of it; what was
        known of other experts stays. */
    lemma {:induction false} LearnedIsTrue(owner: map<Eid, Option<Url>>, partition: map<Url, set<Eid>>, answers: set<Url>,
                                           n: nat, i: nat, e: Eid)
      requires Valid() && i < n <= |nodes| && nodes[i] in answers
      ensures nodes[i] in LearnedPartition(partition, answers, n)
      ensures LearnedPartition(partition, answers, n)[nodes[i]] == serves(nodes[i])
      ensures e in serves(nodes[i]) ==>
        e in LearnedOwner(owner, answers, n) && LearnedOwner(owner, answers, n)[e] == Some(nodes[i])
    {
      if i < n - 1 {
        LearnedIsTrue(owner, partition, answers, n - 1, i, e);
        assert nodes[i] != nodes[n - 1] ==> serves(nodes[i]) !! serves(nodes[n - 1]);
      }
    }

    lemma {:induction false} UnansweredStays(owner: map<Eid, Option<Url>>, answers: set<Url>, n: nat, e: Eid)
      requires n <= |nodes| && forall i :: 0 <= i < n && nodes[i] in answers ==> e !in serves(nodes[i])
      ensures var after := LearnedOwner(owner, answers, n); (e in after <==> e in owner) && (e in after ==> after[e] == owner[e])
    {
      if n > 0 {
        UnansweredStays(owner, answers, n - 1, e);
      }
    }

    function Partials(num: Numerics, req: Req): (partials: seq<Bits>)
      requires Valid() && Accepts(req)
      ensures |partials| == |nodes|
      ensures forall i :: 0 <= i < |nodes| ==> partials[i] == NodePartial(num, nodes[i], req)
    {
      seq(|nodes|, i requires 0 <= i < |nodes| => NodePartial(num, nodes[i], req))
    }
  }

  /** The running total after the first `n` partials. */
  function SumInOrder(num: Numerics, partials: seq<Bits>, n: nat): Bits
    requires 0 < n <= |partials|
  {
    var last := num.widen(partials[n - 1]);
    if n == 1 then last else num.add(SumInOrder(num, partials, n - 1), last)
  }

  /** `parts` added to `total` one after the other, from the left. */
  function Fold(add: (Bits, Bits) -> Bits, total: Bits, parts: seq<Bits>): Bits
    decreases |parts|
  {
    if parts == [] then total else Fold(add, add(total, parts[0]), parts[1..])
  }

  /** What the nodes answer, one after the other, each in float32. */
  function Widened(net: Network, num: Numerics, req: Req): (parts: seq<Bits>)
    requires net.Valid() && net.Accepts(req)
    ensures |parts| == |net.nodes| > 0
    ensures forall i :: 0 <= i < |parts| ==> parts[i] == num.widen(net.NodePartial(num, net.nodes[i], req))
  {
    seq(|net.nodes|, i requires 0 <= i < |net.nodes| => num.widen(net.NodePartial(num, net.nodes[i], req)))
  }

  lemma {:induction false} FoldSnoc(add: (Bits, Bits) -> Bits, total: Bits, parts: seq<Bits>, last: Bits)
    ensures Fold(add, total, parts + [last]) == add(Fold(add, total, parts), last)
    decreases |parts|
  {
    if parts == [] {
      assert parts + [last] == [last];
    } else {
      assert (parts + [last])[1..] == parts[1..] + [last];
      FoldSnoc(add, add(total, parts[0]), parts[1..], last);
    }
  }

  lemma {:induction false} SumIsFold(num: Numerics, partials: seq<Bits>, widened: seq<Bits>, n: nat)
    requires 0 < n <= |partials| == |widened| && forall i :: 0 <= i < |partials| ==> widened[i] == num.widen(partials[i])
    ensures SumInOrder(num, partials, n) == Fold(num.add, widened[0], widened[1..n])
  {
    if n > 1 {
      SumIsFold(num, partials, widened, n - 1);
      FoldSnoc(num.add, widened[0], widened[1..n - 1], widened[n - 1]);
      assert widened[1..n] == widened[1..n - 1] + [widened[n - 1]];
    }
  }

  /** Without a cache every node's float16 partial is widened first; the float32 numbers are added
      in node order, from the left, and the total is narrowed. */
  lemma ReferenceIsFold(net: Network, num: Numerics, req: Req)
    requires net.Valid() && net.Accepts(req)
    ensures var parts := Widened(net, num, req); net.Reference(num, req) == num.narrow(Fold(num.add, parts[0], parts[1..]))
  {
    var parts := Widened(net, num, req);
    SumIsFold(num, net.Partials(num, req), parts, |parts|);
    assert parts[1..|parts|] == parts[1..];
  }

  /** An arithmetic in which adding is listing: its sums show every term and their order. */
  ghost predicate AddLists(num: Numerics) {
    forall a: Bits, b: Bits :: num.add(a, b) == a + b
  }

  function Concatenated(parts: seq<Bits>): Bits {
    if parts == [] then [] else parts[0] + Concatenated(parts[1..])
  }

  lemma {:induction false} FoldLists(num: Numerics, total: Bits, parts: seq<Bits>)
    requires AddLists(num)
    ensures Fold(num.add, total, parts) == total + Concatenated(parts)
    decreases |parts|
  {
    if parts != [] {
      var rest := Concatenated(parts[1..]);
      FoldLists(num, num.add(total, parts[0]), parts[1..]);
      assert num.add(total, parts[0]) == total + parts[0];
      assert total + parts[0] + rest == total + (parts[0] + rest);
    } else {
      assert total + [] == total;
    }
  }

  lemma ReferenceLists(net: Network, num: Numerics, req: Req)
    requires net.Valid() && net.Accepts(req) && AddLists(num)
    ensures net.Reference(num, req) == num.narrow(Concatenated(Widened(net, num, req)))
  {
    var parts := Widened(net, num, req);
    ReferenceIsFold(net, num, req);
    FoldLists(num, parts[0], parts[1..]);
  }

  /** A background block fetch: queued, probing candidate nodes, holding a block that is
      not stored yet, or finished but not yet removed from the in-flight table. */
  datatype Fetch =
    | Queued
    | Probing(candidates: seq<Url>, ownerUnknown: bool)
    | Landed(data: Data)
    | Finished

  /** What the compute thread and the fetch workers share. */
  datatype Tables = Tables(owner: map<Eid, Option<Url>>, partition: map<Url, set<Eid>>, hot: map<Key, Data>,
                           inflight: map<Key, Fetch>)

  /** One atomic step. `ok` is whether the probed node answers at all; `kept` are the
      cache entries that survive the eviction a store may cause. */
  datatype Step =
    | Warm(key: Key)
    | Begin(key: Key)
    | Probe(key: Key, ok: bool)
    | GiveUp(key: Key)
    | Store(key: Key, kept: set<Key>)
    | Done(key: Key)

  /** The effect of a step; a step that is not enabled changes nothing. */
  function Next(net: Network, t: Tables, step: Step): Tables {
    var key := step.key;
    var Key(layer, eid) := key;
    if step.Warm? then
      if key in t.inflight || key in t.hot || (eid in t.owner && t.owner[eid].None?) then t
      else t.(inflight := t.inflight[key := Queued])
    else if key !in t.inflight then t
    else
      match (step, t.inflight[key])
      case (Begin(_), Queued) =>
        var candidates := if eid !in t.owner then net.nodes else if t.owner[eid].None? then [] else [t.owner[eid].value];
        t.(inflight := t.inflight[key := Probing(candidates, eid !in t.owner)])
      case (Probe(_, ok), Probing(candidates, unknown)) =>
        if candidates == [] then t
        else if ok && eid in net.serves(candidates[0]) then
          var u := candidates[0];
          t.(owner := t.owner[eid := Some(u)],
             partition := t.partition[u := (if u in t.partition then t.partition[u] else {}) + {eid}],
             inflight := t.inflight[key := Landed(net.block(layer, eid))])
        else t.(inflight := t.inflight[key := Probing(candidates[1..], unknown)])
      case (GiveUp(_), Probing(candidates, unknown)) =>
        if candidates != [] then t
        else t.(owner := if unknown then t.owner[eid := None] else t.owner, inflight := t.inflight[key := Finished])
      case (Store(_, kept), Landed(data)) =>
        t.(hot := (map other | other in t.hot && other in kept :: t.hot[other])[key := data],
           inflight := t.inflight[key := Finished])
      case (Done(_), Finished) => t.(inflight := t.inflight - {key})
      case _ => t
  }

  /** The step is a probe, in the search for an unknown owner, that errs on a node that
      does serve the expert. */
  predicate Refuses(net: Network, t: Tables, step: Step) {
    && step.Probe? && !step.ok && step.key in t.inflight
    && var f := t.inflight[step.key];
       f.Probing? && f.ownerUnknown && f.candidates != [] && step.key.eid in net.serves(f.candidates[0])
  }

  /** The experts of the request whose recorded owner is `u`. */
  function Mine(owner: map<Eid, Option<Url>>, u: Url, active: seq<Eid>): (mine: seq<Eid>)
    ensures forall e :: e in mine <==> e in active && e in owner && owner[e] == Some(u)
  {
    Filter((e: Eid) => e in owner && owner[e] == Some(u), active)
  }

  /** `mine` is the whole share of node `u` in the request. */
  ghost predicate WholeShare(net: Network, u: Url, mine: seq<Eid>, active: seq<Eid>) {
    forall e :: e in active ==> (e in mine <==> net.Serves(u, e))
  }

  /** What the ownership tables may say at any time: positive entries are true. */
  ghost predicate TablesSound(net: Network, owner: map<Eid, Option<Url>>, partition: map<Url, set<Eid>>) {
    && (forall e :: e in owner && owner[e].Some? ==>
          && net.Serves(owner[e].value, e)
          && owner[e].value in partition && e in partition[owner[e].value])
    && (forall u :: u in partition ==> u in net.nodes && partition[u] <= net.serves(u))
  }

  /** The plan only names active experts that the node is known to own. */
  ghost predicate Covers(partition: map<Url, set<Eid>>, local: map<Url, seq<Eid>>, active: seq<Eid>) {
    forall u :: u in local ==> u in partition && forall e :: e in local[u] ==> e in partition[u] && e in active
  }

  /** Among the first `n` nodes exactly the chosen ones have an entry, and it is the right one. */
  ghost predicate Exactly<T>(nodes: seq<Url>, chosen: Url -> bool, right: Url -> T, entries: map<Url, T>, n: nat) {
    && n <= |nodes|
    && (forall u :: u in entries ==> chosen(u) && entries[u] == right(u))
    && (forall j :: 0 <= j < n && chosen(nodes[j]) ==> nodes[j] in entries)
  }

  lemma ExactlyOneMore<T>(nodes: seq<Url>, chosen: Url -> bool, right: Url -> T, entries: map<Url, T>, n: nat, entry: Option<T>)
    requires n < |nodes| && Exactly(nodes, chosen, right, entries, n)
    requires entry == if chosen(nodes[n]) then Some(right(nodes[n])) else None
    ensures Exactly(nodes, chosen, right, if entry.Some? then entries[nodes[n] := entry.value] else entries, n + 1)
  {
  }

  lemma CoversGrows(t: Tables, t': Tables, local: map<Url, seq<Eid>>, active: seq<Eid>)
    requires Covers(t.partition, local, active) && Grows(t, t')
    ensures Covers(t'.partition, local, active)
  {
  }

  /** No expert that some node serves is recorded as served by nobody. */
  ghost predicate NoneLost(net: Network, owner: map<Eid, Option<Url>>) {
    forall e, u :: e in owner && owner[e].None? ==> !net.Serves(u, e)
  }

  /** The same, of the experts a request asks for. */
  ghost predicate NoneLostOf(net: Network, owner: map<Eid, Option<Url>>, active: seq<Eid>) {
    forall e, u :: e in active && e in owner && owner[e].None? ==> !net.Serves(u, e)
  }

  ghost predicate FetchSound(net: Network, key: Key, f: Fetch, truthful: bool) {
    match f
    case Probing(candidates, unknown) =>
      && (forall u :: u in candidates ==> u in net.nodes)
      && (truthful && unknown ==> forall u :: net.Serves(u, key.eid) ==> u in candidates)
    case Landed(data) => data == net.block(key.layer, key.eid)
    case _ => true
  }

  /** What holds at every moment; `truthful` says that no step so far was a refusal. */
  ghost predicate Sound(net: Network, t: Tables, truthful: bool) {
    && TablesSound(net, t.owner, t.partition)
    && (truthful ==> NoneLost(net, t.owner))
    && (forall key :: key in t.hot ==> t.hot[key] == net.block(key.layer, key.eid))
    && (forall key :: key in t.inflight ==> FetchSound(net, key, t.inflight[key], truthful))
  }

  /** What is known of a partition is never forgotten. */
  ghost predicate Grows(t: Tables, t': Tables) {
    forall u :: u in t.partition ==> u in t'.partition && t.partition[u] <= t'.partition[u]
  }

  /** Node `u` may still turn out to serve `e`: it does, and that is recorded already, or nothing
      is recorded about `e`, or a fetch of `e` is about to ask `u`. */
  ghost predicate Learnable(net: Network, t: Tables, u: Url, e: Eid) {
    && net.Serves(u, e)
    && ((u in t.partition && e in t.partition[u]) || e !in t.owner
        || exists key :: key in t.inflight && key.eid == e && WillAsk(t.inflight[key], u))
  }

  predicate WillAsk(f: Fetch, u: Url) {
    f.Probing? && u in f.candidates
  }

  /** Since `t` partitions have only grown, and only by what was learnable then. */
  ghost predicate Since(net: Network, t: Tables, t': Tables) {
    Grows(t, t') && forall u, e :: Learnable(net, t', u, e) ==> Learnable(net, t, u, e)
  }

  /** No step makes anything learnable that was not. */
  lemma StepNarrows(net: Network, t: Tables, step: Step, u: Url, e: Eid)
    requires net.Valid() && TablesSound(net, t.owner, t.partition) && Learnable(net, Next(net, t, step), u, e)
    ensures Learnable(net, t, u, e)
  {
    var t' := Next(net, t, step);
    var key := step.key;
    if e in t.owner && !(u in t.partition && e in t.partition[u]) {
      if e in t'.owner && !(u in t'.partition && e in t'.partition[u]) {
        var k :| k in t'.inflight && k.eid == e && WillAsk(t'.inflight[k], u);
        if k == key {
          AskedBefore(net, t, step, u, e);
        } else {
          assert k in t.inflight && WillAsk(t.inflight[k], u);
        }
      } else {
        LearnedByAsking(net, t, step, u, e);
      }
    }
  }

  /** A fetch that is about to ask `u` about an expert with a recorded owner was so before. */
  lemma AskedBefore(net: Network, t: Tables, step: Step, u: Url, e: Eid)
    requires net.Valid() && TablesSound(net, t.owner, t.partition) && net.Serves(u, e)
    requires e in t.owner && !(u in t.partition && e in t.partition[u]) && step.key.eid == e
    requires var t' := Next(net, t, step); step.key in t'.inflight && WillAsk(t'.inflight[step.key], u)
    ensures step.key in t.inflight && WillAsk(t.inflight[step.key], u)
  {
  }

  /** An expert that a step records for `u` comes from a fetch that was about to ask it. */
  lemma LearnedByAsking(net: Network, t: Tables, step: Step, u: Url, e: Eid)
    requires e in t.owner && !(u in t.partition && e in t.partition[u])
    requires var t' := Next(net, t, step); e !in t'.owner || (u in t'.partition && e in t'.partition[u])
    ensures step.key in t.inflight && step.key.eid == e && WillAsk(t.inflight[step.key], u)
  {
  }

  lemma StepKeepsSince(net: Network, entry: Tables, t: Tables, step: Step)
    requires net.Valid() && TablesSound(net, t.owner, t.partition) && Since(net, entry, t) && Grows(t, Next(net, t, step))
    ensures Since(net, entry, Next(net, t, step))
  {
    forall u, e | Learnable(net, Next(net, t, step), u, e)
      ensures Learnable(net, entry, u, e)
    {
      StepNarrows(net, t, step, u, e);
    }
  }

  lemma StepKeepsSound(net: Network, t: Tables, step: Step, truthful: bool)
    requires net.Valid() && Sound(net, t, truthful)
    ensures Sound(net, Next(net, t, step), truthful && !Refuses(net, t, step))
    ensures Grows(t, Next(net, t, step))
  {
    if step.Probe? {
      ProbeKeepsSound(net, t, step.key, step.ok, truthful);
    } else if step.GiveUp? {
      GiveUpKeepsSound(net, t, step.key, truthful);
    }
  }

  lemma ProbeKeepsSound(net: Network, t: Tables, key: Key, ok: bool, truthful: bool)
    requires net.Valid() && Sound(net, t, truthful)
    ensures Sound(net, Next(net, t, Probe(key, ok)), truthful && !Refuses(net, t, Probe(key, ok)))
    ensures Grows(t, Next(net, t, Probe(key, ok)))
  {
    if key in t.inflight && t.inflight[key].Probing? && t.inflight[key].candidates != [] {
      var f := t.inflight[key];
      var u := f.candidates[0];
      assert FetchSound(net, key, f, truthful);
      assert u in f.candidates;
      if ok && key.eid in net.serves(u) {
        ServedKeepsSound(net, t, key, u, truthful);
      } else {
        RefusedKeepsSound(net, t, key, f, truthful, truthful && !Refuses(net, t, Probe(key, ok)));
      }
    }
  }

  /** A delivered block records a true owner and is the published one. */
  lemma ServedKeepsSound(net: Network, t: Tables, key: Key, u: Url, truthful: bool)
    requires Sound(net, t, truthful) && net.Serves(u, key.eid)
    ensures var known := (if u in t.partition then t.partition[u] else {}) + {key.eid};
      var t' := t.(owner := t.owner[key.eid := Some(u)], partition := t.partition[u := known],
                   inflight := t.inflight[key := Landed(net.block(key.layer, key.eid))]);
      Sound(net, t', truthful) && Grows(t, t')
  {
  }

  /** A search that drops its first candidate still has every node that serves the expert,
      unless that candidate was one of them. */
  lemma RefusedKeepsSound(net: Network, t: Tables, key: Key, f: Fetch, truthful: bool, still: bool)
    requires Sound(net, t, truthful) && FetchSound(net, key, f, truthful) && (still ==> truthful)
    requires f.Probing? && f.candidates != []
    requires still && f.ownerUnknown ==> !net.Serves(f.candidates[0], key.eid)
    ensures Sound(net, t.(inflight := t.inflight[key := Probing(f.candidates[1..], f.ownerUnknown)]), still)
  {
    assert f.candidates == [f.candidates[0]] + f.candidates[1..];
    assert FetchSound(net, key, Probing(f.candidates[1..], f.ownerUnknown), still);
  }

  lemma GiveUpKeepsSound(net: Network, t: Tables, key: Key, truthful: bool)
    requires net.Valid() && Sound(net, t, truthful)
    ensures Sound(net, Next(net, t, GiveUp(key)), truthful)
    ensures Grows(t, Next(net, t, GiveUp(key)))
  {
    if key in t.inflight && t.inflight[key].Probing? && t.inflight[key].candidates == [] {
      assert FetchSound(net, key, t.inflight[key], truthful);
    }
  }

  function Run(net: Network, t: Tables, steps: seq<Step>): Tables
    decreases |steps|
  {
    if steps == [] then t else Run(net, Next(net, t, steps[0]), steps[1..])
  }

  /** A network of one node that serves experts 0 and 1. */
  function OneNode(block: (nat, Eid) -> Data, u: Url): Network {
    Network([u], (v: Url) => {0, 1}, block, 2)
  }

  /** A complete fetch of expert `e`. */
  function FetchOf(e: Eid): seq<Step> {
    [Warm(Key(0, e)), Begin(Key(0, e)), Probe(Key(0, e), true), Store(Key(0, e), {}), Done(Key(0, e))]
  }

  /** A search for expert 0 that is refused once. */
  const REFUSED: seq<Step> := [Warm(Key(0, 0)), Begin(Key(0, 0)), Probe(Key(0, 0), false), GiveUp(Key(0, 0)), Done(Key(0, 0))]

  lemma {:induction false} RunAppend(net: Network, t: Tables, a: seq<Step>, b: seq<Step>)
    ensures Run(net, t, a + b) == Run(net, Run(net, t, a), b)
    decreases |a|
  {
    if a == [] {
      assert a + b == b;
    } else {
      assert (a + b)[1..] == a[1..] + b;
      RunAppend(net, Next(net, t, a[0]), a[1..], b);
    }
  }

  lemma RunFive(net: Network, t: Tables, steps: seq<Step>)
    requires |steps| == 5
    ensures Run(net, t, steps)
         == Next(net, Next(net, Next(net, Next(net, Next(net, t, steps[0]), steps[1]), steps[2]), steps[3]), steps[4])
  {
    var t1 := Next(net, t, steps[0]);
    var t2 := Next(net, t1, steps[1]);
    var t3 := Next(net, t2, steps[2]);
    assert Run(net, t2, steps[2..]) == Run(net, t3, steps[3..]);
    assert Run(net, t3, steps[3..]) == Run(net, Next(net, t3, steps[3]), steps[4..]);
  }

  lemma FetchedEnds(block: (nat, Eid) -> Data, u: Url, e: Eid)
    requires e < 2
    ensures Run(OneNode(block, u), Tables(map[], map[], map[], map[]), FetchOf(e))
         == Tables(map[e := Some(u)], map[u := {e}], map[Key(0, e) := block(0, e)], map[])
  {
    var net, key := OneNode(block, u), Key(0, e);
    var t0 := Tables(map[], map[], map[], map[]);
    var t2 := Next(net, Next(net, t0, Warm(key)), Begin(key));
    assert t2 == t0.(inflight := map[key := Probing([u], true)]);
    var t3 := Next(net, t2, Probe(key, true));
    assert t3.partition[u] == {e};
    var t5 := Next(net, Next(net, t3, Store(key, {})), Done(key));
    assert t5.inflight == map[] && t5.hot == map[key := block(0, e)];
    RunFive(net, t0, FetchOf(e));
  }

  lemma RefusedEnds(block: (nat, Eid) -> Data, u: Url, t: Tables)
    requires 0 !in t.owner && Key(0, 0) !in t.hot && t.inflight == map[]
    ensures Run(OneNode(block, u), t, REFUSED) == t.(owner := t.owner[0 := None])
  {
    var net := OneNode(block, u);
    RunFive(net, t, REFUSED);
    SearchBegins(net, t, u);
    RefusedProbe(net, t.(inflight := map[Key(0, 0) := Probing([u], true)]), u);
    SearchEnds(net, t);
  }

  lemma SearchBegins(net: Network, t: Tables, u: Url)
    requires net.nodes == [u] && 0 !in t.owner && Key(0, 0) !in t.hot && t.inflight == map[]
    ensures Next(net, Next(net, t, Warm(Key(0, 0))), Begin(Key(0, 0))) == t.(inflight := map[Key(0, 0) := Probing([u], true)])
  {
    var t1 := Next(net, t, Warm(Key(0, 0)));
    assert t1 == t.(inflight := map[Key(0, 0) := Queued]);
  }

  lemma SearchEnds(net: Network, t: Tables)
    requires t.inflight == map[]
    ensures Next(net, Next(net, t.(inflight := map[Key(0, 0) := Probing([], true)]), GiveUp(Key(0, 0))), Done(Key(0, 0)))
         == t.(owner := t.owner[0 := None])
  {
    var t1 := Next(net, t.(inflight := map[Key(0, 0) := Probing([], true)]), GiveUp(Key(0, 0)));
    assert t1.inflight - {Key(0, 0)} == map[];
  }

  lemma RefusedProbe(net: Network, t: Tables, u: Url)
    requires t.inflight == map[Key(0, 0) := Probing([u], true)]
    ensures Next(net, t, Probe(Key(0, 0), false)) == t.(inflight := map[Key(0, 0) := Probing([], true)])
  {
    assert [u][1..] == [];
  }

  lemma OneNodeIsValid(block: (nat, Eid) -> Data, u: Url)
    ensures OneNode(block, u).Valid() && OneNode(block, u).Accepts(Request(0, [0], [], [0], [1]))
    ensures TablesSound(OneNode(block, u), map[1 := Some(u), 0 := None], map[u := {1}])
  {
  }

  lemma LostPartial(net: Network, owner: map<Eid, Option<Url>>, partition: map<Url, set<Eid>>, hot: set<Key>, u: Url, req: Req)
    requires net.Valid() && net.Accepts(req) && TablesSound(net, owner, partition)
    requires req.active == [0] && 0 in owner && owner[0] == None && net.Serves(u, 0) && u in partition
    ensures QuietAnswer(net, Counting(), owner, partition, hot, req) != net.Reference(Counting(), req)
  {
    assert Mine(owner, u, req.active) == [] by {
      FilterNone((e: Eid) => e in owner && owner[e] == Some(u), req.active);
    }
    assert req.active[0] in req.active && Skipped(net, owner, partition, hot, u, req);
    SomethingLostIsWrong(net, owner, partition, hot, req);
  }

  /** Without `/partition`, one transient error while an owner is searched for leaves a
      reachable, quiet state in which the next call silently drops a node's partial. */
  lemma TransientErrorLosesPartial(block: (nat, Eid) -> Data, u: Url)
    ensures var net := OneNode(block, u);
      var t := Run(net, Tables(map[], map[], map[], map[]), FetchOf(1) + REFUSED);
      var req: Req := Request(0, [0], [], [0], [1]);
      && net.Valid() && net.Accepts(req) && TablesSound(net, t.owner, t.partition) && t.inflight == map[]
      && QuietAnswer(net, Counting(), t.owner, t.partition, t.hot.Keys, req) != net.Reference(Counting(), req)
  {
    var net := OneNode(block, u);
    var t := Run(net, Tables(map[], map[], map[], map[]), FetchOf(1) + REFUSED);
    RunAppend(net, Tables(map[], map[], map[], map[]), FetchOf(1), REFUSED);
    FetchedEnds(block, u, 1);
    RefusedEnds(block, u, Tables(map[1 := Some(u)], map[u := {1}], map[Key(0, 1) := block(0, 1)], map[]));
    OneNodeIsValid(block, u);
    LostPartial(net, t.owner, t.partition, t.hot.Keys, u, Request(0, [0], [], [0], [1]));
  }

  /** What becomes of a node's partial on the driver. */
  datatype Outcome = Computed(value: Bits) | Evicted | Raised

  /** The call raises only if some share's tables, sized by the ids recorded when it began, leave
      out an id that was still learnable then. */
  ghost predicate MayRaise(net: Network, t: Tables, req: Req) {
    exists u :: u in net.nodes && OutsideTables(net, t, u, req)
  }

  ghost predicate OutsideTables(net: Network, t: Tables, u: Url, req: Req) {
    && Mine(t.owner, u, req.active) != [] && u in t.partition
    && exists e: Eid :: Learnable(net, t, u, e) && e >= LocalTableSize(req, t.partition[u])
  }

  class DistributedReader {
    const net: Network
    const num: Numerics
    const hotOn: bool
    var owner: map<Eid, Option<Url>>
    var partition: map<Url, set<Eid>>
    var hot: map<Key, Data>
    var inflight: map<Key, Fetch>
    ghost var truthful: bool  // no step so far was a refusal
    ghost var entry: Tables   // the tables when the current call began

    ghost function Shared(): Tables
      reads this
    {
      Tables(owner, partition, hot, inflight)
    }

    ghost predicate Valid()
      reads this
    {
      net.Valid() && Sound(net, Shared(), truthful) && Since(net, entry, Shared())
    }

    /** What any number of steps of other threads leaves true. */
    twostate predicate Moved()
      reads this
    {
      Grows(old(Shared()), Shared()) && (truthful ==> old(truthful)) && entry == old(entry)
    }

    /** Ask every node for its partition; only those in `answers` reply. */
    method LearnPartitions(answers: set<Url>)
      requires Valid()
      modifies this`owner, this`partition, this`entry
      ensures Valid()
      ensures owner == net.LearnedOwner(old(owner), answers, |net.nodes|)
      ensures partition == net.LearnedPartition(old(partition), answers, |net.nodes|)
    {
      for i := 0 to |net.nodes|
        invariant Valid()
        invariant owner == net.LearnedOwner(old(owner), answers, i)
        invariant partition == net.LearnedPartition(old(partition), answers, i)
      {
        if net.nodes[i] in answers {
          Learn(net.nodes[i]);
        }
      }
    }

    method Learn(u: Url)
      requires Valid() && u in net.nodes
      modifies this`owner, this`partition, this`entry
      ensures Valid()
      ensures partition == old(partition)[u := net.serves(u)]
      ensures owner == old(owner) + map e | e in net.serves(u) :: Some(u)
    {
      var ids := net.serves(u);
      partition := partition[u := ids];
      owner := owner + map e | e in ids :: Some(u);
      entry := Shared();
    }

    /** One atomic step of another thread, as that thread writes the shared fields. */
    method Work(step: Step)
      requires Valid()
      modifies this
      ensures Shared() == Next(net, old(Shared()), step)
      ensures truthful == (old(truthful) && !Refuses(net, old(Shared()), step))
      ensures Valid() && Moved()
    {
      StepKeepsSound(net, Shared(), step, truthful);
      StepKeepsSince(net, entry, Shared(), step);
      truthful := truthful && !Refuses(net, Shared(), step);
      if step.Warm? {
        var key := step.key;
        if key !in inflight && key !in hot && !(key.eid in owner && owner[key.eid].None?) {
          inflight := inflight[key := Queued];
        }
      } else if step.key in inflight {
        Advance(step);
      }
    }

    /** A step of a fetch that is in flight. */
    method Advance(step: Step)
      requires !step.Warm? && step.key in inflight
      modifies this`owner, this`partition, this`hot, this`inflight
      ensures Shared() == Next(net, old(Shared()), step)
    {
      var key := step.key;
      var eid := key.eid;
      match (step, inflight[key]) {
        case (Begin(_), Queued) =>
          var candidates := if eid !in owner then net.nodes else if owner[eid].None? then [] else [owner[eid].value];
          inflight := inflight[key := Probing(candidates, eid !in owner)];
        case (Probe(_, ok), Probing(candidates, unknown)) =>
          if candidates != [] {
            ProbeNode(key, candidates[0], candidates[1..], unknown, ok);
          }
        case (GiveUp(_), Probing(candidates, unknown)) =>
          if candidates == [] {
            if unknown {
              owner := owner[eid := None];
            }
            inflight := inflight[key := Finished];
          }
        case (Store(_, kept), Landed(data)) =>
          hot := (map other | other in hot && other in kept :: hot[other])[key := data];
          inflight := inflight[key := Finished];
        case (Done(_), Finished) =>
          inflight := inflight - {key};
        case _ =>
      }
    }

    /** Ask node `u` for the block; a block of the right size also proves who owns it. */
    method ProbeNode(key: Key, u: Url, rest: seq<Url>, unknown: bool, ok: bool)
      modifies this`owner, this`partition, this`inflight
      ensures var served := ok && key.eid in net.serves(u);
        Shared() == if served then
          old(Shared()).(owner := old(owner)[key.eid := Some(u)],
                         partition := old(partition)[u := (if u in old(partition) then old(partition[u]) else {}) + {key.eid}],
                         inflight := old(inflight)[key := Landed(net.block(key.layer, key.eid))])
        else old(Shared()).(inflight := old(inflight)[key := Probing(rest, unknown)])
    {
      var Key(layer, eid) := key;
      if ok && eid in net.serves(u) {
        owner := owner[eid := Some(u)];
        partition := partition[u := (if u in partition then partition[u] else {}) + {eid}];
        inflight := inflight[key := Landed(net.block(layer, eid))];
      } else {
        inflight := inflight[key := Probing(rest, unknown)];
      }
    }

    /** Any number of worker steps, in any order; none in a quiet call. */
    method Interfere(quiet: bool)
      requires Valid()
      modifies this
      ensures Valid() && Moved()
      ensures quiet ==> Shared() == old(Shared())
    {
      if quiet {
        return;
      }
      var n: nat := *;
      while n > 0
        invariant Valid() && Moved()
      {
        var step: Step := *;
        Work(step);
        n := n - 1;
      }
    }

    ghost predicate ShareOf(owners: map<Eid, Option<Url>>, u: Url, mine: seq<Eid>, req: Req) {
      u in net.nodes && mine == Mine(owners, u, req.active) && forall e :: e in req.active ==> e in owners
    }

    /** The first `n` nodes are local or remote; the local ones have the shares recorded in
        `owners`, with every owner known, and a known partition. */
    ghost predicate Planned(owners: map<Eid, Option<Url>>, partition: map<Url, set<Eid>>, local: map<Url, seq<Eid>>,
                            remote: seq<Url>, n: nat, req: Req) {
      && n <= |net.nodes| && (forall j :: 0 <= j < n ==> net.nodes[j] in local || net.nodes[j] in remote)
      && (forall u :: u in local ==> ShareOf(owners, u, local[u], req))
      && Covers(partition, local, req.active)
    }

    lemma PlannedOneMore(owners: map<Eid, Option<Url>>, t: Tables, t': Tables, local: map<Url, seq<Eid>>, remote: seq<Url>,
                         n: nat, mine: seq<Eid>, answerable: bool, req: Req)
      requires Planned(owners, t.partition, local, remote, n, req) && Grows(t, t') && n < |net.nodes|
      requires answerable ==> ShareOf(owners, net.nodes[n], mine, req) && Covers(t'.partition, map[net.nodes[n] := mine], req.active)
      ensures Planned(owners, t'.partition, if answerable then local[net.nodes[n] := mine] else local,
                      if answerable then remote else remote + [net.nodes[n]], n + 1, req)
    {
      CoversGrows(t, t', local, req.active);
    }

    /** Decide which nodes can be answered for. Cache probes interleave with the workers; in a
        quiet call exactly the nodes that can be skipped are local. */
    method Plan(req: Req, quiet: bool) returns (local: map<Url, seq<Eid>>, remote: seq<Url>)
      requires Valid() && net.Accepts(req)
      modifies this
      ensures Valid() && Moved()
      ensures Planned(old(owner), partition, local, remote, |net.nodes|, req) && SharesOf(old(owner), local, req)
      ensures NoneLostOf(net, old(owner), req.active) ==> WholeShares(local, req)
      ensures quiet ==> Shared() == old(Shared())
      ensures quiet ==> Exactly(net.nodes, SkippedNodes(net, Shared(), req), RecordedShares(Shared(), req), local, |net.nodes|)
    {
      ghost var t := Shared();
      ghost var chosen, shares := SkippedNodes(net, t, req), RecordedShares(t, req);
      var owners := owner;
      local, remote := map[], [];
      for i := 0 to |net.nodes|
        invariant Valid() && Moved() && Planned(owners, partition, local, remote, i, req)
        invariant quiet ==> Shared() == t && Exactly(net.nodes, chosen, shares, local, i)
      {
        ghost var before := Shared();
        var mine, answerable := PlanNode(net.nodes[i], owners, req, quiet);
        PlannedOneMore(owners, before, Shared(), local, remote, i, mine, answerable, req);
        if quiet {
          ExactlyOneMore(net.nodes, chosen, shares, local, i, if answerable then Some(mine) else None);
        }
        if answerable {
          local := local[net.nodes[i] := mine];
        } else {
          remote := remote + [net.nodes[i]];
        }
      }
      if NoneLostOf(net, owners, req.active) {
        SharesAreWhole(net, owners, old(partition), local, req.active);
      }
    }

    ghost predicate WholeShares(local: map<Url, seq<Eid>>, req: Req) {
      forall u :: u in local ==> WholeShare(net, u, local[u], req.active)
    }

    /** One node of the plan, from the owners recorded when the call began. */
    method PlanNode(u: Url, owners: map<Eid, Option<Url>>, req: Req, quiet: bool) returns (mine: seq<Eid>, answerable: bool)
      requires Valid() && u in net.nodes && TablesSound(net, owners, partition)
      modifies this
      ensures Valid() && Moved()
      ensures mine == Mine(owners, u, req.active)
      ensures answerable ==> ShareOf(owners, u, mine, req)
      ensures answerable ==> Covers(partition, map[u := mine], req.active)
      ensures quiet ==> Shared() == old(Shared())
      ensures quiet && owners == owner ==>
        (answerable <==> SkippedNodes(net, Shared(), req)(u)) && mine == RecordedShares(Shared(), req)(u)
    {
      mine := Mine(owners, u, req.active);
      if exists e :: e in req.active && e !in owners {
        return mine, false;
      }
      answerable := Answerable(req.layer, u, mine, quiet);
      assert forall e :: e in mine ==> owners[e] == Some(u);
      assert mine != [] ==> mine[0] in mine;
    }

    /** All of the node's share is cached, or it has none and its partition is known. */
    method Answerable(layer: nat, u: Url, mine: seq<Eid>, quiet: bool) returns (yes: bool)
      requires Valid()
      modifies this
      ensures Valid() && Moved()
      ensures mine == [] && yes ==> u in partition
      ensures quiet ==> Shared() == old(Shared())
      ensures quiet ==> (yes <==> if mine == [] then u in partition else forall e :: e in mine ==> Key(layer, e) in hot.Keys)
    {
      if mine == [] {
        Interfere(quiet);
        return u in partition;
      }
      yes := AllCached(layer, mine, quiet);
    }

    /** Probe the cache for each expert in turn. */
    method AllCached(layer: nat, mine: seq<Eid>, quiet: bool) returns (yes: bool)
      requires Valid()
      modifies this
      ensures Valid() && Moved()
      ensures quiet ==> Shared() == old(Shared()) && (yes <==> forall e :: e in mine ==> Key(layer, e) in hot.Keys)
    {
      for j := 0 to |mine|
        invariant Valid() && Moved()
        invariant quiet ==> Shared() == old(Shared()) && forall i :: 0 <= i < j ==> Key(layer, mine[i]) in hot.Keys
      {
        Interfere(quiet);
        if Key(layer, mine[j]) !in hot {
          return false;
        }
      }
      return true;
    }

    /** Produce a node's partial here, unless a block was evicted meanwhile. The node's partition
        is the live set the workers add to, and it is read twice: for the size of the lookup
        tables and, later, to mark them. An id that was added in between and lies outside the
        tables raises. `first` and `second` are what the two reads saw. */
    method LocalPartial(u: Url, mine: seq<Eid>, req: Req, quiet: bool) returns (out: Outcome, ghost first: set<Eid>, ghost second: set<Eid>)
      requires Valid() && net.Accepts(req) && u in net.nodes && u in partition
      requires forall e :: e in mine ==> e in req.active && e in partition[u]
      modifies this
      ensures Valid() && Moved()
      ensures out.Computed? && WholeShare(net, u, mine, req.active) ==> out.value == net.NodePartial(num, u, req)
      ensures !out.Evicted? && mine != [] ==>
        && (u in entry.partition ==> entry.partition[u] <= first) && (forall e :: e in first ==> e in second)
        && (forall e :: e in second ==> Learnable(net, entry, u, e))
        && (out.Raised? <==> exists e :: e in second && e >= LocalTableSize(req, first))
      ensures mine == [] ==> out.Computed?
      ensures quiet ==> Shared() == old(Shared()) && !out.Raised?
      ensures quiet && mine == RecordedShares(Shared(), req)(u) && SkippedNodes(net, Shared(), req)(u) ==>
        out == Computed(QuietNodePartials(net, num, Shared(), req)(u))
    {
      first, second := {}, {};
      if mine == [] {
        if WholeShare(net, u, mine, req.active) {
          EmptyShareIsZeros(net, num, u, req);
        }
        return Computed(num.kernel.zeros(req.hidden)), first, second;
      }
      var gathered := GatherBlocks(mine, req.layer, quiet);
      if gathered.None? {
        return Evicted, first, second;
      }
      Interfere(quiet);
      first := partition[u];
      var numExperts := LocalTableSize(req, partition[u]);
      Interfere(quiet);
      second := partition[u];
      RecordedIsLearnable(u);
      out := PartialOver(u, mine, gathered.value, partition[u], numExperts, req);
    }

    lemma RecordedIsLearnable(u: Url)
      requires Valid() && u in partition
      ensures forall e :: e in partition[u] ==> Learnable(net, entry, u, e)
    {
      forall e | e in partition[u]
        ensures Learnable(net, entry, u, e)
      {
        assert Learnable(net, Shared(), u, e);
      }
    }

    /** `compute_partial` over gathered blocks, with tables of a given size. The blocks are in
        the partition from the start, so whether the experts computed are picked before or after
        an id is added makes no difference. */
    method PartialOver(u: Url, mine: seq<Eid>, experts: map<Eid, Data>, ids: set<Eid>, numExperts: nat, req: Req)
      returns (out: Outcome)
      requires net.Valid() && net.Accepts(req) && u in net.nodes && ids <= net.serves(u)
      requires experts == net.Loaded((set e | e in mine), req.layer)
      requires forall e :: e in mine ==> e in req.active && e in ids
      requires InRange({}, numExperts, req)
      ensures out == if InRange(ids, numExperts, req) then Computed(ComputePartial(num.kernel, experts, ids, numExperts, req).1) else Raised
      ensures out.Computed? && WholeShare(net, u, mine, req.active) ==> out.value == net.NodePartial(num, u, req)
    {
      if !InRange(ids, numExperts, req) {
        return Raised;
      }
      if WholeShare(net, u, mine, req.active) {
        SameShareSamePartial(net, num, u, mine, experts, ids, numExperts, req);
      }
      var (_, result) := ComputePartial(num.kernel, experts, ids, numExperts, req);
      return Computed(result);
    }

    /** Read the blocks one by one; any of them may have been evicted meanwhile. */
    method GatherBlocks(mine: seq<Eid>, layer: nat, quiet: bool) returns (experts: Option<map<Eid, Data>>)
      requires Valid()
      modifies this
      ensures Valid() && Moved()
      ensures experts.Some? ==> experts.value == net.Loaded((set e | e in mine), layer)
      ensures quiet ==> Shared() == old(Shared())
      ensures quiet && (forall e :: e in mine ==> Key(layer, e) in hot.Keys) ==> experts.Some?
    {
      var found: map<Eid, Data> := map[];
      var j := 0;
      while j < |mine|
        invariant 0 <= j <= |mine|
        invariant Valid() && Moved()
        invariant found == net.Loaded((set e | e in mine[..j]), layer)
        invariant quiet ==> Shared() == old(Shared())
      {
        Interfere(quiet);
        var key := Key(layer, mine[j]);
        if key !in hot {
          return None;
        }
        found := found[mine[j] := hot[key]];
        TakeSnoc(mine, j);
        j := j + 1;
      }
      assert mine[..j] == mine;
      return Some(found);
    }

    /**
     The data path. It returns nothing when it raises. For every cache state and every
     interleaving: if no active expert is wrongly recorded as unserved when the call begins,
     the result is bit for bit the one without a cache or the call raises, and it raises only
     if an id outside some share's tables can still be learned. With the cache off it never
     raises and is always right.
     */
    method ComputeDistributed(req: Req, quiet: bool) returns (out: Option<Bits>)
      requires Valid() && net.Accepts(req)
      modifies this
      ensures Valid() && Grows(old(Shared()), Shared()) && (truthful ==> old(truthful)) && entry == old(Shared())
      ensures (NoneLostOf(net, old(owner), req.active) || !hotOn) && out.Some? ==> out.value == net.Reference(num, req)
      ensures !hotOn ==> var parts := Widened(net, num, req); out == Some(num.narrow(Fold(num.add, parts[0], parts[1..])))
      ensures !hotOn && AddLists(num) ==> out == Some(num.narrow(Concatenated(Widened(net, num, req))))
      ensures out.None? ==> hotOn && !quiet && MayRaise(net, old(Shared()), req)
      ensures quiet && hotOn ==> out == Some(QuietAnswer(net, num, old(owner), old(partition), old(hot).Keys, req))
      ensures quiet ==> Shared() == if hotOn then Queueing(old(Shared()), req.layer, req.active) else old(Shared())
    {
      entry := Shared();
      var answered: map<Url, Bits> := map[];
      if hotOn {
        var raised;
        answered, raised := AnswerLocally(req, quiet);
        if raised {
          return None;
        }
      }
      Interfere(quiet);
      var sum := SumAll(answered, req);
      if NoneLostOf(net, old(owner), req.active) || !hotOn {
        UsedIsReference(answered, req);
        ReferenceIsFold(net, num, req);
        if AddLists(num) {
          ReferenceLists(net, num, req);
        }
      }
      if quiet && hotOn {
        UsedIsQuiet(old(Shared()), answered, req);
      }
      return Some(sum);
    }

    lemma UsedIsReference(answered: map<Url, Bits>, req: Req)
      requires net.Valid() && net.Accepts(req) && Agrees(OwnPartials(net, num, req), answered)
      ensures Used(answered, req) == net.Partials(num, req)
    {
      var used, right := Used(answered, req), net.Partials(num, req);
      forall i | 0 <= i < |net.nodes|
        ensures used[i] == right[i]
      {
        assert OwnPartials(net, num, req)(net.nodes[i]) == net.NodePartial(num, net.nodes[i], req);
      }
    }

    lemma UsedIsQuiet(t: Tables, answered: map<Url, Bits>, req: Req)
      requires net.Valid() && net.Accepts(req) && TablesSound(net, t.owner, t.partition)
      requires Exactly(net.nodes, SkippedNodes(net, t, req), QuietNodePartials(net, num, t, req), answered, |net.nodes|)
      ensures Used(answered, req) == QuietPartials(net, num, t.owner, t.partition, t.hot.Keys, req)
    {
      var used, right := Used(answered, req), QuietPartials(net, num, t.owner, t.partition, t.hot.Keys, req);
      forall i | 0 <= i < |net.nodes|
        ensures used[i] == right[i]
      {
        assert SkippedNodes(net, t, req)(net.nodes[i]) == Skipped(net, t.owner, t.partition, t.hot.Keys, net.nodes[i], req);
      }
    }

    /** The partials that go into the sum: local ones where there are any. */
    function Used(answered: map<Url, Bits>, req: Req): (partials: seq<Bits>)
      requires net.Valid() && net.Accepts(req)
      ensures |partials| == |net.nodes|
    {
      seq(|net.nodes|, i requires 0 <= i < |net.nodes| =>
        var u := net.nodes[i]; if u in answered then answered[u] else net.NodePartial(num, u, req))
    }

    /** Sum in node order, asking the nodes that were not answered for. */
    method SumAll(answered: map<Url, Bits>, req: Req) returns (out: Bits)
      requires net.Valid() && net.Accepts(req)
      ensures out == num.narrow(SumInOrder(num, Used(answered, req), |net.nodes|))
    {
      ghost var used := Used(answered, req);
      var total: Bits := [];
      var i := 0;
      while i < |net.nodes|
        invariant 0 <= i <= |net.nodes|
        invariant i > 0 ==> total == SumInOrder(num, used, i)
      {
        var u := net.nodes[i];
        var partial := if u in answered then answered[u] else net.NodePartial(num, u, req);
        assert partial == used[i];
        partial := num.widen(partial);
        total := if i == 0 then partial else num.add(total, partial);
        i := i + 1;
      }
      out := num.narrow(total);
    }

    /** `own` gives the nodes' partials and `quietly` those a quiet call in state `t` uses. */
    ghost predicate PartialsAre(own: Url -> Bits, quietly: Url -> Bits, t: Tables, req: Req)
      requires net.Valid() && net.Accepts(req) && TablesSound(net, t.owner, t.partition)
    {
      && (forall u {:trigger net.NodePartial(num, u, req)} :: u in net.nodes ==> own(u) == net.NodePartial(num, u, req))
      && (forall u {:trigger QuietPartial(net, num, t.owner, t.partition, t.hot.Keys, u, req)} :: u in net.nodes ==>
            quietly(u) == QuietPartial(net, num, t.owner, t.partition, t.hot.Keys, u, req))
    }

    /** Plan, answer for the local nodes, and queue fetches for what was missing. */
    method AnswerLocally(req: Req, quiet: bool) returns (answered: map<Url, Bits>, raised: bool)
      requires Valid() && net.Accepts(req) && entry == Shared()
      modifies this
      ensures Valid() && Moved()
      ensures NoneLostOf(net, old(owner), req.active) ==> Agrees(OwnPartials(net, num, req), answered)
      ensures raised ==> !quiet && MayRaise(net, old(Shared()), req)
      ensures quiet ==> var t := old(Shared());
        Exactly(net.nodes, SkippedNodes(net, t, req), QuietNodePartials(net, num, t, req), answered, |net.nodes|)
      ensures quiet ==> Shared() == Queueing(old(Shared()), req.layer, req.active)
    {
      ghost var t := Shared();
      var local, remote := Plan(req, quiet);
      ghost var own, quietly := OwnPartials(net, num, req), QuietNodePartials(net, num, t, req);
      var cached;
      answered, cached, raised := AnswerPlan(local, req, quiet, t, own, quietly);
      if raised {
        return;
      }
      var missing := Filter((e: Eid) => e !in cached, req.active);
      WarmAll(req.layer, missing, quiet);
      if quiet {
        WarmStepsQueue(net, t, req.layer, missing);
        CachedNeedNone(t, req.layer, req.active, cached);
      }
    }

    /** Answer for the local nodes; a node whose block was evicted meanwhile is left to be asked.
        The first error ends it. */
    method AnswerPlan(local: map<Url, seq<Eid>>, req: Req, quiet: bool, ghost t: Tables, ghost own: Url -> Bits,
                      ghost quietly: Url -> Bits)
      returns (answered: map<Url, Bits>, cached: set<Eid>, raised: bool)
      requires Valid() && net.Accepts(req) && Covers(partition, local, req.active)
      requires TablesSound(net, t.owner, t.partition) && PartialsAre(own, quietly, t, req)
      requires entry == t && SharesOf(t.owner, local, req)
      requires quiet ==> Shared() == t && Exactly(net.nodes, SkippedNodes(net, t, req), RecordedShares(t, req), local, |net.nodes|)
      modifies this
      ensures Valid() && Moved()
      ensures WholeShares(local, req) ==> Agrees(own, answered)
      ensures raised ==> !quiet && MayRaise(net, t, req)
      ensures quiet ==> Exactly(net.nodes, SkippedNodes(net, t, req), quietly, answered, |net.nodes|)
      ensures quiet ==> Shared() == t && AllHot(t, req.layer, cached)
    {
      ghost var chosen, whole := SkippedNodes(net, t, req), WholeShares(local, req);
      answered, cached, raised := map[], {}, false;
      for i := 0 to |net.nodes|
        invariant Valid() && Moved() && Covers(partition, local, req.active) && !raised
        invariant whole ==> Agrees(own, answered)
        invariant quiet ==> Shared() == t && Exactly(net.nodes, chosen, quietly, answered, i) && AllHot(t, req.layer, cached)
      {
        var u, out := net.nodes[i], None;
        var share;
        out, share, raised := AnswerIfLocal(i, local, req, quiet, t, own, quietly);
        if raised {
          return;
        }
        if quiet {
          ExactlyOneMore(net.nodes, chosen, quietly, answered, i, out);
        }
        if whole {
          AgreesOneMore(own, answered, u, out);
        }
        if out.Some? {
          answered := answered[u := out.value];
          cached := cached + share;
        }
      }
    }

    /** Answer for node `i` if the plan says so. */
    method AnswerIfLocal(i: nat, local: map<Url, seq<Eid>>, req: Req, quiet: bool, ghost t: Tables, ghost own: Url -> Bits,
                         ghost quietly: Url -> Bits)
      returns (out: Option<Bits>, share: set<Eid>, raised: bool)
      requires Valid() && net.Accepts(req) && i < |net.nodes| && Covers(partition, local, req.active)
      requires TablesSound(net, t.owner, t.partition) && PartialsAre(own, quietly, t, req)
      requires entry == t && SharesOf(t.owner, local, req)
      requires quiet ==> Shared() == t && Exactly(net.nodes, SkippedNodes(net, t, req), RecordedShares(t, req), local, |net.nodes|)
      modifies this
      ensures Valid() && Moved() && Covers(partition, local, req.active)
      ensures out.Some? ==> net.nodes[i] in local
      ensures WholeShares(local, req) && out.Some? ==> out.value == own(net.nodes[i])
      ensures raised ==> !quiet && MayRaise(net, t, req)
      ensures quiet ==> Shared() == t && AllHot(t, req.layer, share)
      ensures quiet ==> out == if SkippedNodes(net, t, req)(net.nodes[i]) then Some(quietly(net.nodes[i])) else None
    {
      var u := net.nodes[i];
      if u in local {
        share := set e | e in local[u];
        if quiet {
          SkippedIsHot(t, u, req);
        }
        out, raised := AnswerNode(u, local, req, quiet, t, own, quietly);
      } else {
        out, share, raised := None, {}, false;
      }
    }

    /** What is asked of a skipped node is cached. */
    lemma SkippedIsHot(t: Tables, u: Url, req: Req)
      requires SkippedNodes(net, t, req)(u)
      ensures AllHot(t, req.layer, set e | e in RecordedShares(t, req)(u))
    {
    }

    /** The local nodes have the shares recorded in `owners`. */
    ghost predicate SharesOf(owners: map<Eid, Option<Url>>, local: map<Url, seq<Eid>>, req: Req) {
      forall u :: u in local ==> local[u] == Mine(owners, u, req.active)
    }

    /** One node of the plan. */
    method AnswerNode(u: Url, local: map<Url, seq<Eid>>, req: Req, quiet: bool, ghost t: Tables, ghost own: Url -> Bits,
                      ghost quietly: Url -> Bits)
      returns (out: Option<Bits>, raised: bool)
      requires Valid() && net.Accepts(req) && u in net.nodes && u in local && Covers(partition, local, req.active)
      requires TablesSound(net, t.owner, t.partition) && PartialsAre(own, quietly, t, req)
      requires entry == t && SharesOf(t.owner, local, req) && (quiet ==> Shared() == t)
      modifies this
      ensures Valid() && Moved() && Covers(partition, local, req.active)
      ensures WholeShares(local, req) && out.Some? ==> out.value == own(u)
      ensures raised ==> !quiet && MayRaise(net, t, req)
      ensures quiet ==> Shared() == t
      ensures quiet && local[u] == RecordedShares(t, req)(u) && SkippedNodes(net, t, req)(u) ==> out == Some(quietly(u))
    {
      ghost var before := Shared();
      var outcome, first, second := LocalPartial(u, local[u], req, quiet);
      CoversGrows(before, Shared(), local, req.active);
      raised := outcome.Raised?;
      if raised {
        RaiseWasPossible(u, local[u], first, second, req);
      }
      out := if outcome.Computed? then Some(outcome.value) else None;
    }

    lemma RaiseWasPossible(u: Url, mine: seq<Eid>, first: set<Eid>, second: set<Eid>, req: Req)
      requires Valid() && u in net.nodes && mine == Mine(entry.owner, u, req.active) && mine != []
      requires TablesSound(net, entry.owner, entry.partition)
      requires u in entry.partition ==> entry.partition[u] <= first
      requires forall e :: e in second ==> Learnable(net, entry, u, e)
      requires exists e :: e in second && e >= LocalTableSize(req, first)
      ensures MayRaise(net, entry, req)
    {
      assert mine[0] in mine;
      TableSizeGrows(req, entry.partition[u], first);
      assert OutsideTables(net, entry, u, req);
    }

    /** Queue background fetches: in a quiet call those steps and no others are taken. */
    method WarmAll(layer: nat, missing: seq<Eid>, quiet: bool)
      requires Valid()
      modifies this
      ensures Valid() && Moved()
      ensures quiet ==> Shared() == Run(net, old(Shared()), WarmSteps(layer, missing, |missing|))
    {
      for i := 0 to |missing|
        invariant Valid() && Moved()
        invariant quiet ==> Shared() == Run(net, old(Shared()), WarmSteps(layer, missing, i))
      {
        Interfere(quiet);
        ghost var step := Warm(Key(layer, missing[i]));
        RunAppend(net, old(Shared()), WarmSteps(layer, missing, i), [step]);
        RunOne(net, Run(net, old(Shared()), WarmSteps(layer, missing, i)), step);
        Work(Warm(Key(layer, missing[i])));
      }
    }
  }

  ghost predicate AllHot(t: Tables, layer: nat, ids: set<Eid>) {
    forall e :: e in ids ==> Key(layer, e) in t.hot
  }

  /** A fetch is worth queueing: the block is not cached or in flight, and somebody may serve it. */
  predicate WorthFetching(t: Tables, key: Key) {
    key !in t.hot && key !in t.inflight && !(key.eid in t.owner && t.owner[key.eid].None?)
  }

  function WorthQueueing(t: Tables, layer: nat, ids: seq<Eid>): set<Key> {
    set e | e in ids && WorthFetching(t, Key(layer, e)) :: Key(layer, e)
  }

  /** The tables with a fetch queued for each of these experts that is worth it, and nothing else
      changed. */
  function Queueing(t: Tables, layer: nat, ids: seq<Eid>): Tables {
    t.(inflight := t.inflight + map key | key in WorthQueueing(t, layer, ids) :: Queued)
  }

  /** One warming step. */
  function Warmed(t: Tables, key: Key): Tables {
    if WorthFetching(t, key) then t.(inflight := t.inflight[key := Queued]) else t
  }

  lemma WarmIsNext(net: Network, t: Tables, key: Key)
    ensures Next(net, t, Warm(key)) == Warmed(t, key)
  {
  }

  lemma RunThenWarm(net: Network, t: Tables, steps: seq<Step>, key: Key)
    ensures Run(net, t, steps + [Warm(key)]) == Warmed(Run(net, t, steps), key)
  {
    RunAppend(net, t, steps, [Warm(key)]);
    RunOne(net, Run(net, t, steps), Warm(key));
    WarmIsNext(net, Run(net, t, steps), key);
  }

  lemma {:induction false} WarmStepsFollow(net: Network, layer: nat, missing: seq<Eid>, n: nat, states: nat -> Tables)
    requires n <= |missing|
    requires forall i: nat :: i < n ==> Warmed(states(i), Key(layer, missing[i])) == states(i + 1)
    ensures Run(net, states(0), WarmSteps(layer, missing, n)) == states(n)
  {
    if n > 0 {
      WarmStepsFollow(net, layer, missing, n - 1, states);
      RunThenWarm(net, states(0), WarmSteps(layer, missing, n - 1), Key(layer, missing[n - 1]));
    }
  }

  /** Warming queues a fetch for exactly the experts that are worth it, and changes nothing else. */
  lemma WarmStepsQueue(net: Network, t: Tables, layer: nat, missing: seq<Eid>)
    ensures Run(net, t, WarmSteps(layer, missing, |missing|)) == Queueing(t, layer, missing)
  {
    var states := (i: nat) => Queueing(t, layer, if i <= |missing| then missing[..i] else missing);
    forall i: nat | i < |missing|
      ensures Warmed(states(i), Key(layer, missing[i])) == states(i + 1)
    {
      QueueOneMore(t, layer, missing[..i], missing[i]);
      TakeSnoc(missing, i);
    }
    QueueNone(t, layer, missing[..0]);
    WarmStepsFollow(net, layer, missing, |missing|, states);
    assert missing[..|missing|] == missing;
  }

  lemma QueueNone(t: Tables, layer: nat, none: seq<Eid>)
    requires none == []
    ensures Queueing(t, layer, none) == t
  {
    assert WorthQueueing(t, layer, none) == {};
    assert Queueing(t, layer, none).inflight == t.inflight;
  }

  lemma OneMoreKey<K, V>(m: map<K, V>, keys: set<K>, k: K, v: V)
    ensures m + (map x | x in keys + {k} :: v) == (m + map x | x in keys :: v)[k := v]
  {
  }

  lemma QueueOneMore(t: Tables, layer: nat, ids: seq<Eid>, e: Eid)
    ensures Warmed(Queueing(t, layer, ids), Key(layer, e)) == Queueing(t, layer, ids + [e])
  {
    var key, keys := Key(layer, e), WorthQueueing(t, layer, ids);
    WorthOneMore(t, layer, ids, e);
    if WorthFetching(t, key) {
      OneMoreKey(t.inflight, keys, key, Queued);
    } else {
      assert keys + {} == keys && key !in keys;
    }
  }

  lemma WorthOneMore(t: Tables, layer: nat, ids: seq<Eid>, e: Eid)
    ensures WorthQueueing(t, layer, ids + [e])
         == WorthQueueing(t, layer, ids) + if WorthFetching(t, Key(layer, e)) then {Key(layer, e)} else {}
  {
  }

  /** Experts that are cached need no fetch. */
  lemma CachedNeedNone(t: Tables, layer: nat, ids: seq<Eid>, cached: set<Eid>)
    requires AllHot(t, layer, cached)
    ensures Queueing(t, layer, Filter((e: Eid) => e !in cached, ids)) == Queueing(t, layer, ids)
  {
    assert WorthQueueing(t, layer, Filter((e: Eid) => e !in cached, ids)) == WorthQueueing(t, layer, ids);
  }

  function WarmSteps(layer: nat, missing: seq<Eid>, n: nat): seq<Step>
    requires n <= |missing|
  {
    if n == 0 then [] else WarmSteps(layer, missing, n - 1) + [Warm(Key(layer, missing[n - 1]))]
  }

  lemma RunOne(net: Network, t: Tables, step: Step)
    ensures Run(net, t, [step]) == Next(net, t, step)
  {
    assert [step][1..] == [];
  }

  /** The tables the driver allocates for its own `compute_partial`. */
  function LocalTableSize(req: Req, ids: set<Eid>): (n: nat)
    ensures InRange(ids, n, req)
  {
    var m := MaxOf(req.inds, MaxOf(req.active, 0));
    Bound(ids, m) + 1
  }

  /** No smaller tables would hold the ids recorded and asked for. */
  lemma LocalTableSizeIsLeast(req: Req, ids: set<Eid>, n: nat)
    requires n > 0 && InRange(ids, n, req)
    ensures LocalTableSize(req, ids) <= n
  {
    var active := MaxOf(req.active, 0);
    var m := MaxOf(req.inds, active);
    assert Bound(ids, m) == m || Bound(ids, m) in ids;
    assert m == active || m in req.inds;
    assert active == 0 || active in req.active;
  }

  function Bound(ids: set<Eid>, least: nat): (m: nat)
    ensures least <= m && (forall e :: e in ids ==> e <= m) && (m == least || m in ids)
  {
    if ids == {} then least
    else
      LargestExists(ids);
      var e :| e in ids && forall x :: x in ids ==> x <= e;
      if e > least then e else least
  }

  lemma {:induction false} LargestExists(ids: set<Eid>)
    requires ids != {}
    ensures exists e :: e in ids && forall x :: x in ids ==> x <= e
  {
    var e :| e in ids;
    if ids != {e} {
      LargestExists(ids - {e});
      var m :| m in ids - {e} && forall x :: x in ids - {e} ==> x <= m;
      assert forall x :: x in ids ==> x == e || x in ids - {e};
      var top := if e > m then e else m;
      assert top in ids && forall x :: x in ids ==> x <= top;
    }
  }

  /** More recorded ids never make the tables smaller. */
  lemma TableSizeGrows(req: Req, ids: set<Eid>, more: set<Eid>)
    requires ids <= more
    ensures LocalTableSize(req, ids) <= LocalTableSize(req, more)
  {
    var m := MaxOf(req.inds, MaxOf(req.active, 0));
    assert Bound(ids, m) == m || Bound(ids, m) in ids;
  }

  /** With sound tables and every owner known, the recorded share is the true one. */
  lemma ShareIsWhole(net: Network, owner: map<Eid, Option<Url>>, partition: map<Url, set<Eid>>, u: Url, active: seq<Eid>)
    requires net.Valid() && TablesSound(net, owner, partition) && NoneLostOf(net, owner, active)
    requires u in net.nodes && forall e :: e in active ==> e in owner
    ensures WholeShare(net, u, Mine(owner, u, active), active)
  {
    forall e | e in active
      ensures e in Mine(owner, u, active) <==> net.Serves(u, e)
    {
      if net.Serves(u, e) && owner[e].Some? && owner[e].value != u {
        assert e in net.serves(u) * net.serves(owner[e].value);
      }
    }
  }

  lemma SharesAreWhole(net: Network, owner: map<Eid, Option<Url>>, partition: map<Url, set<Eid>>,
                       local: map<Url, seq<Eid>>, active: seq<Eid>)
    requires net.Valid() && TablesSound(net, owner, partition) && NoneLostOf(net, owner, active)
    requires forall u :: u in local ==> u in net.nodes && (forall e :: e in active ==> e in owner) && local[u] == Mine(owner, u, active)
    ensures forall u :: u in local ==> WholeShare(net, u, local[u], active)
  {
    forall u | u in local
      ensures WholeShare(net, u, local[u], active)
    {
      ShareIsWhole(net, owner, partition, u, active);
    }
  }

  /** The driver's partial over a whole share is the node's own, although it may know
      less of the partition and allocates smaller tables. */
  lemma SameShareSamePartial(net: Network, num: Numerics, u: Url, mine: seq<Eid>, experts: map<Eid, Data>,
                             ids: set<Eid>, n: nat, req: Req)
    requires net.Valid() && net.Accepts(req) && u in net.nodes && WholeShare(net, u, mine, req.active)
    requires experts == net.Loaded((set e | e in mine), req.layer)
    requires ids <= net.serves(u) && InRange(ids, n, req)
    requires forall e :: e in mine ==> e in req.active && e in ids
    ensures ComputePartial(num.kernel, experts, ids, n, req).1 == net.NodePartial(num, u, req)
  {
    PartialIsLocal(num.kernel, experts, ids, n, net.Loaded(net.serves(u), req.layer), net.serves(u), net.numExperts, req);
  }

  /** A node that owns none of the active experts answers zeros. */
  lemma EmptyShareIsZeros(net: Network, num: Numerics, u: Url, req: Req)
    requires net.Valid() && net.Accepts(req) && u in net.nodes && WholeShare(net, u, [], req.active)
    ensures net.NodePartial(num, u, req) == num.kernel.zeros(req.hidden)
  {
    var ids := MyIds(net.Loaded(net.serves(u), req.layer), net.serves(u), req.active);
    assert forall e :: e in req.active ==> e !in net.serves(u);
    FilterNone((e: Eid) => e in net.serves(u) && e in net.Loaded(net.serves(u), req.layer), req.active);
  }

  /******* Exactly when a quiet call is right *******/

  /** The node would be answered for, when no fetch runs during the call. */
  ghost predicate Skipped(net: Network, owner: map<Eid, Option<Url>>, partition: map<Url, set<Eid>>, hot: set<Key>, u: Url, req: Req) {
    && (forall e :: e in req.active ==> e in owner)
    && var mine := Mine(owner, u, req.active);
       if mine == [] then u in partition else forall e :: e in mine ==> Key(req.layer, e) in hot
  }

  ghost predicate Agrees(right: Url -> Bits, answered: map<Url, Bits>) {
    forall u :: u in answered ==> answered[u] == right(u)
  }

  lemma AgreesOneMore(right: Url -> Bits, answered: map<Url, Bits>, u: Url, entry: Option<Bits>)
    requires Agrees(right, answered) && (entry.Some? ==> entry.value == right(u))
    ensures Agrees(right, if entry.Some? then answered[u := entry.value] else answered)
  {
  }

  /** The nodes' own partials, as a function. */
  ghost function OwnPartials(net: Network, num: Numerics, req: Req): Url -> Bits
    requires net.Valid() && net.Accepts(req)
  {
    (u: Url) => if u in net.nodes then net.NodePartial(num, u, req) else []
  }

  /** The nodes a quiet call skips, as a function. */
  ghost function SkippedNodes(net: Network, t: Tables, req: Req): Url -> bool {
    (u: Url) => Skipped(net, t.owner, t.partition, t.hot.Keys, u, req)
  }

  ghost function RecordedShares(t: Tables, req: Req): Url -> seq<Eid> {
    (u: Url) => Mine(t.owner, u, req.active)
  }

  /** The partials a quiet call uses for them. */
  ghost function QuietNodePartials(net: Network, num: Numerics, t: Tables, req: Req): Url -> Bits
    requires net.Valid() && net.Accepts(req) && TablesSound(net, t.owner, t.partition)
  {
    (u: Url) => if u in net.nodes then QuietPartial(net, num, t.owner, t.partition, t.hot.Keys, u, req) else []
  }

  /** What a quiet call uses as the partial of `u`. */
  ghost function QuietPartial(net: Network, num: Numerics, owner: map<Eid, Option<Url>>, partition: map<Url, set<Eid>>,
                              hot: set<Key>, u: Url, req: Req): Bits
    requires net.Valid() && net.Accepts(req) && TablesSound(net, owner, partition) && u in net.nodes
  {
    var mine := Mine(owner, u, req.active);
    if !Skipped(net, owner, partition, hot, u, req) then net.NodePartial(num, u, req)
    else if mine == [] then num.kernel.zeros(req.hidden)
    else
      assert mine[0] in mine;
      ComputePartial(num.kernel, net.Loaded((set e | e in mine), req.layer), partition[u],
                     LocalTableSize(req, partition[u]), req).1
  }

  ghost function QuietAnswer(net: Network, num: Numerics, owner: map<Eid, Option<Url>>, partition: map<Url, set<Eid>>,
                             hot: set<Key>, req: Req): Bits
    requires net.Valid() && net.Accepts(req) && TablesSound(net, owner, partition)
  {
    num.narrow(SumInOrder(num, QuietPartials(net, num, owner, partition, hot, req), |net.nodes|))
  }

  ghost function QuietPartials(net: Network, num: Numerics, owner: map<Eid, Option<Url>>, partition: map<Url, set<Eid>>,
                               hot: set<Key>, req: Req): (partials: seq<Bits>)
    requires net.Valid() && net.Accepts(req) && TablesSound(net, owner, partition)
    ensures |partials| == |net.nodes|
    ensures forall i :: 0 <= i < |net.nodes| ==>
              partials[i] == QuietPartial(net, num, owner, partition, hot, net.nodes[i], req)
  {
    seq(|net.nodes|, i requires 0 <= i < |net.nodes| =>
      QuietPartial(net, num, owner, partition, hot, net.nodes[i], req))
  }

  /** No skipped node serves an active expert that is recorded as served by nobody. */
  ghost predicate NothingLost(net: Network, owner: map<Eid, Option<Url>>, partition: map<Url, set<Eid>>, hot: set<Key>, req: Req) {
    forall u, e :: u in net.nodes && Skipped(net, owner, partition, hot, u, req) && e in req.active && owner[e].None?
      ==> !net.Serves(u, e)
  }

  /** Float operations under which a partial is the number of experts computed and the
      sum is the list of partials: two calls agree on them only node by node. */
  function Counting(): Numerics {
    Numerics(
      Kernel((h: Bits, stack: seq<Data>, rows: seq<nat>, weights: seq<int>) => [|stack|],
             (w: int, own: bool) => w,
             (h: Bits) => [0]),
      (b: Bits) => b,
      (a: Bits, b: Bits) => a + b,
      (b: Bits) => b)
  }

  lemma {:induction false} CountingSumIsInjective(a: seq<Bits>, b: seq<Bits>, n: nat, i: nat)
    requires i < n <= |a| == |b|
    requires forall j :: 0 <= j < |a| ==> |a[j]| == |b[j]| == 1
    requires SumInOrder(Counting(), a, n) == SumInOrder(Counting(), b, n)
    ensures a[i] == b[i]
  {
    CountingSumLength(a, n);
    CountingSumLength(b, n);
    if n > 1 {
      CountingSumLength(a, n - 1);
      CountingSumLength(b, n - 1);
      var x, y := SumInOrder(Counting(), a, n), SumInOrder(Counting(), b, n);
      assert SumInOrder(Counting(), a, n - 1) == x[..n - 1] == y[..n - 1] == SumInOrder(Counting(), b, n - 1);
      if i < n - 1 {
        CountingSumIsInjective(a, b, n - 1, i);
      } else {
        assert a[i][0] == x[n - 1] == y[n - 1] == b[i][0];
      }
    }
  }

  lemma {:induction false} CountingSumLength(a: seq<Bits>, n: nat)
    requires 0 < n <= |a| && forall j :: 0 <= j < |a| ==> |a[j]| == 1
    ensures |SumInOrder(Counting(), a, n)| == n
  {
    if n > 1 {
      CountingSumLength(a, n - 1);
    }
  }

  /** A share that lost an expert to a `None` entry computes fewer experts. */
  lemma LostExpertShows(net: Network, owner: map<Eid, Option<Url>>, partition: map<Url, set<Eid>>, hot: set<Key>,
                        u: Url, e: Eid, req: Req)
    requires net.Valid() && net.Accepts(req) && TablesSound(net, owner, partition)
    requires u in net.nodes && Skipped(net, owner, partition, hot, u, req)
    requires e in req.active && owner[e].None? && net.Serves(u, e)
    ensures QuietPartial(net, Counting(), owner, partition, hot, u, req) != net.NodePartial(Counting(), u, req)
  {
    var mine := Mine(owner, u, req.active);
    var loaded := net.Loaded(net.serves(u), req.layer);
    var all := (x: Eid) => x in net.serves(u) && x in loaded;
    var few := (x: Eid) => x in owner && owner[x] == Some(u);
    FilterFewer(few, all, req.active);
    assert all(e) && !few(e);
    if mine != [] {
      assert mine[0] in mine;
      var experts := net.Loaded((set x | x in mine), req.layer);
      var known := partition[u];
      FilterCongruence(few, (x: Eid) => x in known && x in experts, req.active);
    }
  }

  lemma QuietNodeIsExact(net: Network, num: Numerics, owner: map<Eid, Option<Url>>, partition: map<Url, set<Eid>>,
                         hot: set<Key>, u: Url, req: Req)
    requires net.Valid() && net.Accepts(req) && TablesSound(net, owner, partition) && u in net.nodes
    requires NothingLost(net, owner, partition, hot, req)
    ensures QuietPartial(net, num, owner, partition, hot, u, req) == net.NodePartial(num, u, req)
  {
    if Skipped(net, owner, partition, hot, u, req) {
      var mine := Mine(owner, u, req.active);
      forall e | e in req.active
        ensures e in mine <==> net.Serves(u, e)
      {
        assert e in owner && (owner[e].Some? ==> net.Serves(owner[e].value, e));
      }
      if mine == [] {
        EmptyShareIsZeros(net, num, u, req);
      } else {
        assert mine[0] in mine;
        SameShareSamePartial(net, num, u, mine, net.Loaded((set e | e in mine), req.layer), partition[u],
                             LocalTableSize(req, partition[u]), req);
      }
    }
  }

  lemma NothingLostIsExact(net: Network, num: Numerics, owner: map<Eid, Option<Url>>, partition: map<Url, set<Eid>>,
                           hot: set<Key>, req: Req)
    requires net.Valid() && net.Accepts(req) && TablesSound(net, owner, partition)
    requires NothingLost(net, owner, partition, hot, req)
    ensures QuietAnswer(net, num, owner, partition, hot, req) == net.Reference(num, req)
  {
    var a, b := QuietPartials(net, num, owner, partition, hot, req), net.Partials(num, req);
    forall i | 0 <= i < |net.nodes|
      ensures a[i] == b[i]
    {
      QuietNodeIsExact(net, num, owner, partition, hot, net.nodes[i], req);
    }
    assert a == b;
  }

  lemma CountsAreSingletons(net: Network, owner: map<Eid, Option<Url>>, partition: map<Url, set<Eid>>,
                            hot: set<Key>, u: Url, req: Req)
    requires net.Valid() && net.Accepts(req) && TablesSound(net, owner, partition) && u in net.nodes
    ensures |QuietPartial(net, Counting(), owner, partition, hot, u, req)| == 1
    ensures |net.NodePartial(Counting(), u, req)| == 1
  {
  }

  lemma SomethingLostIsWrong(net: Network, owner: map<Eid, Option<Url>>, partition: map<Url, set<Eid>>, hot: set<Key>, req: Req)
    requires net.Valid() && net.Accepts(req) && TablesSound(net, owner, partition)
    requires !NothingLost(net, owner, partition, hot, req)
    ensures QuietAnswer(net, Counting(), owner, partition, hot, req) != net.Reference(Counting(), req)
  {
    var u, e :| u in net.nodes && Skipped(net, owner, partition, hot, u, req) && e in req.active && owner[e].None?
      && net.Serves(u, e);
    var i :| 0 <= i < |net.nodes| && net.nodes[i] == u;
    var a, b := QuietPartials(net, Counting(), owner, partition, hot, req), net.Partials(Counting(), req);
    assert a[i] != b[i] by {
      LostExpertShows(net, owner, partition, hot, u, e, req);
    }
    forall j | 0 <= j < |a|
      ensures |a[j]| == |b[j]| == 1
    {
      CountsAreSingletons(net, owner, partition, hot, net.nodes[j], req);
    }
    CountingDiffers(a, b, i);
    CountingAnswers(a, b);
  }

  lemma CountingAnswers(a: seq<Bits>, b: seq<Bits>)
    requires |a| == |b| > 0 && SumInOrder(Counting(), a, |a|) != SumInOrder(Counting(), b, |b|)
    ensures Counting().narrow(SumInOrder(Counting(), a, |a|)) != Counting().narrow(SumInOrder(Counting(), b, |b|))
  {
  }

  lemma CountingDiffers(a: seq<Bits>, b: seq<Bits>, i: nat)
    requires i < |a| == |b| && a[i] != b[i]
    requires forall j :: 0 <= j < |a| ==> |a[j]| == |b[j]| == 1
    ensures SumInOrder(Counting(), a, |a|) != SumInOrder(Counting(), b, |b|)
  {
    if SumInOrder(Counting(), a, |a|) == SumInOrder(Counting(), b, |b|) {
      CountingSumIsInjective(a, b, |a|, i);
    }
  }

  /** A quiet call returns the uncached result under every float arithmetic if and only
      if no node it skips serves an active expert recorded as served by nobody. */
  lemma QuietCallIsExact(net: Network, owner: map<Eid, Option<Url>>, partition: map<Url, set<Eid>>, hot: set<Key>, req: Req)
    requires net.Valid() && net.Accepts(req) && TablesSound(net, owner, partition)
    ensures (forall num: Numerics :: QuietAnswer(net, num, owner, partition, hot, req) == net.Reference(num, req))
       <==> NothingLost(net, owner, partition, hot, req)
  {
    if NothingLost(net, owner, partition, hot, req) {
      forall num: Numerics
        ensures QuietAnswer(net, num, owner, partition, hot, req) == net.Reference(num, req)
      {
        NothingLostIsExact(net, num, owner, partition, hot, req);
      }
    } else {
      SomethingLostIsWrong(net, owner, partition, hot, req);
    }
  }
}
