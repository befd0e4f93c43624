/**
 The hot cache reads a node's partition twice while it computes that node's partial, and
 fetch workers add to it in between. When exactly can such an addition leave the tables
 that were sized by the first read?
 */
module PartitionRace {
  import opened Collections
  import opened Partials
  import opened HotCache

  /** The steps, taken between the two reads, record an expert of `u` that is outside the tables. */
  ghost predicate Raises(net: Network, t: Tables, u: Url, req: Req, steps: seq<Step>)
    requires u in t.partition
  {
    var after := Run(net, t, steps).partition;
    u in after && !InRange(after[u], LocalTableSize(req, t.partition[u]), req)
  }

  /** Every probe among the steps gets an answer. */
  ghost predicate Answering(steps: seq<Step>) {
    forall i :: 0 <= i < |steps| && steps[i].Probe? ==> steps[i].ok
  }

  lemma {:induction false} RunKeepsSound(net: Network, t: Tables, steps: seq<Step>)
    requires net.Valid() && Sound(net, t, false)
    ensures Sound(net, Run(net, t, steps), false) && Grows(t, Run(net, t, steps))
    decreases |steps|
  {
    if steps != [] {
      StepKeepsSound(net, t, steps[0], false);
      RunKeepsSound(net, Next(net, t, steps[0]), steps[1..]);
    }
  }

  /** No run makes an expert learnable that was not. */
  lemma {:induction false} RunNarrows(net: Network, t: Tables, steps: seq<Step>, u: Url, e: Eid)
    requires net.Valid() && Sound(net, t, false) && Learnable(net, Run(net, t, steps), u, e)
    ensures Learnable(net, t, u, e)
    decreases |steps|
  {
    if steps != [] {
      StepKeepsSound(net, t, steps[0], false);
      RunNarrows(net, Next(net, t, steps[0]), steps[1..], u, e);
      StepNarrows(net, t, steps[0], u, e);
    }
  }

  /** A search that still has `u` among its candidates gets there, as no other node has the expert. */
  lemma {:induction false} AskingLearns(net: Network, t: Tables, key: Key, u: Url) returns (steps: seq<Step>)
    requires net.Valid() && net.Serves(u, key.eid) && key in t.inflight && WillAsk(t.inflight[key], u)
    requires forall v :: v in t.inflight[key].candidates ==> v in net.nodes
    ensures Answering(steps)
    ensures var after := Run(net, t, steps).partition; u in after && key.eid in after[u]
    decreases |t.inflight[key].candidates|
  {
    var candidates := t.inflight[key].candidates;
    var step := Probe(key, true);
    if key.eid in net.serves(candidates[0]) {
      assert net.serves(candidates[0]) * net.serves(u) != {} by {
        assert key.eid in net.serves(candidates[0]) * net.serves(u);
      }
      steps := [step];
      RunOne(net, t, step);
    } else {
      assert candidates == [candidates[0]] + candidates[1..];
      var rest := AskingLearns(net, Next(net, t, step), key, u);
      steps := [step] + rest;
      assert steps[1..] == rest;
    }
  }

  /** A search for an expert about which nothing is recorded can start, for some layer. */
  lemma SearchStarts(net: Network, t: Tables, e: Eid) returns (key: Key)
    requires e !in t.owner
    ensures key.eid == e
    ensures Run(net, t, [Warm(key), Begin(key)]) == t.(inflight := t.inflight[key := Probing(net.nodes, true)])
  {
    var layers := set k | k in t.inflight.Keys + t.hot.Keys :: k.layer;
    key := Key(Bound(layers, 0) + 1, e);
    assert key.layer !in layers;
    assert key !in t.inflight && key !in t.hot;
    RunAppend(net, t, [Warm(key)], [Begin(key)]);
    RunOne(net, t, Warm(key));
    RunOne(net, Next(net, t, Warm(key)), Begin(key));
    assert [Warm(key)] + [Begin(key)] == [Warm(key), Begin(key)];
  }

  /** What is learnable is learned by some run, and no error is needed for it. */
  lemma LearnableIsLearned(net: Network, t: Tables, u: Url, e: Eid) returns (steps: seq<Step>)
    requires net.Valid() && Sound(net, t, false) && Learnable(net, t, u, e)
    ensures Answering(steps)
    ensures var after := Run(net, t, steps).partition; u in after && e in after[u]
  {
    if u in t.partition && e in t.partition[u] {
      steps := [];
    } else if key :| key in t.inflight && key.eid == e && WillAsk(t.inflight[key], u) {
      assert FetchSound(net, key, t.inflight[key], false);
      steps := AskingLearns(net, t, key, u);
    } else {
      var key := SearchStarts(net, t, e);
      var start := [Warm(key), Begin(key)];
      var rest := AskingLearns(net, Run(net, t, start), key, u);
      steps := start + rest;
      RunAppend(net, t, start, rest);
    }
  }

  /** Between the reads some interleaving raises if and only if an expert of `u` outside the tables
      is learnable at the first read; and then one does in which no request fails. */
  lemma WindowRaises(net: Network, t: Tables, u: Url, req: Req)
    requires net.Valid() && Sound(net, t, false) && u in t.partition
    ensures (exists steps :: Raises(net, t, u, req, steps))
       <==> exists e: Eid :: Learnable(net, t, u, e) && e >= LocalTableSize(req, t.partition[u])
    ensures (exists steps :: Raises(net, t, u, req, steps))
       <==> exists steps :: Answering(steps) && Raises(net, t, u, req, steps)
  {
    var n := LocalTableSize(req, t.partition[u]);
    if e: Eid :| Learnable(net, t, u, e) && e >= n {
      var steps := LearnableIsLearned(net, t, u, e);
      assert Answering(steps) && Raises(net, t, u, req, steps);
    }
    if steps :| Raises(net, t, u, req, steps) {
      var after := Run(net, t, steps);
      RunKeepsSound(net, t, steps);
      var e :| e in after.partition[u] && e >= n;
      assert Learnable(net, after, u, e);
      RunNarrows(net, t, steps, u, e);
    }
  }

  /** When every node told its partition, no call raises, at any time later. */
  lemma AnsweringNodesNeverRaise(net: Network, t: Tables, steps: seq<Step>, req: Req)
    requires net.Valid() && Sound(net, t, false)
    requires forall u :: u in net.nodes ==> u in t.partition && t.partition[u] == net.serves(u)
    ensures !MayRaise(net, Run(net, t, steps), req)
  {
    RunKeepsSound(net, t, steps);
    var after := Run(net, t, steps);
    forall u | u in net.nodes
      ensures !OutsideTables(net, after, u, req)
    {
      assert net.serves(u) == t.partition[u] <= after.partition[u];
    }
  }

  /** Start a search for expert 1. */
  const SEARCHING: seq<Step> := [Warm(Key(0, 1)), Begin(Key(0, 1))]

  /** A reachable state, without any failed request, in which the driver answers for a node
      and one more answer raises: the request only needs expert 0, whose block is cached, and
      the node is found to serve expert 1 as well. */
  lemma LateExpertRaises(block: (nat, Eid) -> Data, u: Url)
    ensures var net := OneNode(block, u);
      var t := Run(net, Tables(map[], map[], map[], map[]), FetchOf(0) + SEARCHING);
      var req: Req := Request(0, [0], [], [0], [1]);
      && net.Valid() && net.Accepts(req) && Sound(net, t, true)
      && SkippedNodes(net, t, req)(u) && u in t.partition
      && !Refuses(net, t, Probe(Key(0, 1), true)) && Raises(net, t, u, req, [Probe(Key(0, 1), true)])
  {
    var net := OneNode(block, u);
    var empty := Tables(map[], map[], map[], map[]);
    var fetched := Tables(map[0 := Some(u)], map[u := {0}], map[Key(0, 0) := block(0, 0)], map[]);
    RunAppend(net, empty, FetchOf(0), SEARCHING);
    FetchedEnds(block, u, 0);
    OneSearched(block, u);
    var t := fetched.(inflight := map[Key(0, 1) := Probing([u], true)]);
    ExpertOneArrives(block, u, t);
  }

  lemma OneSearched(block: (nat, Eid) -> Data, u: Url)
    ensures var fetched := Tables(map[0 := Some(u)], map[u := {0}], map[Key(0, 0) := block(0, 0)], map[]);
      Run(OneNode(block, u), fetched, SEARCHING) == fetched.(inflight := map[Key(0, 1) := Probing([u], true)])
  {
    var net := OneNode(block, u);
    var fetched := Tables(map[0 := Some(u)], map[u := {0}], map[Key(0, 0) := block(0, 0)], map[]);
    assert SEARCHING == [SEARCHING[0]] + [SEARCHING[1]];
    RunAppend(net, fetched, [SEARCHING[0]], [SEARCHING[1]]);
    RunOne(net, fetched, SEARCHING[0]);
    RunOne(net, Next(net, fetched, SEARCHING[0]), SEARCHING[1]);
  }

  lemma ExpertOneArrives(block: (nat, Eid) -> Data, u: Url, t: Tables)
    requires t == Tables(map[0 := Some(u)], map[u := {0}], map[Key(0, 0) := block(0, 0)], map[Key(0, 1) := Probing([u], true)])
    ensures var net := OneNode(block, u);
      var req: Req := Request(0, [0], [], [0], [1]);
      && net.Valid() && net.Accepts(req) && Sound(net, t, true) && SkippedNodes(net, t, req)(u)
      && Raises(net, t, u, req, [Probe(Key(0, 1), true)])
  {
    var net := OneNode(block, u);
    var req: Req := Request(0, [0], [], [0], [1]);
    RunOne(net, t, Probe(Key(0, 1), true));
    assert Next(net, t, Probe(Key(0, 1), true)).partition[u] == {0, 1};
    assert LocalTableSize(req, {0}) == 1 by {
      assert MaxOf(req.inds, MaxOf(req.active, 0)) == 0;
    }
  }
}
