/**
 Rendezvous placement: every machine computes who owns an expert from the same roster and
 a hash, with no further agreement.
 */
module Placement {
  import opened Collections

  type NodeId = string

  /** The digest of a node and an expert, as a number. */
  type Score = (NodeId, nat) -> nat

  /** The first node of the roster with the highest score. */
  function Owner(score: Score, roster: seq<NodeId>, e: nat): (owner: NodeId)
    requires roster != []
    ensures owner in roster
  {
    var last := roster[|roster| - 1];
    if |roster| == 1 then last
    else
      var best := Owner(score, roster[..|roster| - 1], e);
      if score(last, e) > score(best, e) then last else best
  }

  /** Position `i` has the highest score and no earlier position has it too. */
  ghost predicate Leads(score: Score, roster: seq<NodeId>, e: nat, i: nat) {
    && i < |roster|
    && (forall j :: 0 <= j < |roster| ==> score(roster[j], e) <= score(roster[i], e))
    && (forall j :: 0 <= j < i ==> score(roster[j], e) < score(roster[i], e))
  }

  lemma {:induction false} OwnerLeads(score: Score, roster: seq<NodeId>, e: nat) returns (i: nat)
    requires roster != []
    ensures Leads(score, roster, e, i) && Owner(score, roster, e) == roster[i]
  {
    i := |roster| - 1;
    if |roster| > 1 {
      var before := OwnerLeads(score, roster[..i], e);
      if score(roster[i], e) <= score(roster[before], e) {
        i := before;
      }
    }
  }

  /** Only one position leads, and its node is the owner. */
  lemma LeaderIsOwner(score: Score, roster: seq<NodeId>, e: nat, i: nat)
    requires Leads(score, roster, e, i)
    ensures Owner(score, roster, e) == roster[i]
  {
    var k := OwnerLeads(score, roster, e);
    assert score(roster[i], e) == score(roster[k], e);
    assert i == k;
  }

  function Insert(roster: seq<NodeId>, p: nat, n: NodeId): seq<NodeId>
    requires p <= |roster|
  {
    roster[..p] + [n] + roster[p..]
  }

  /** The newcomer at position `p` beats every earlier node and no later one beats it. */
  ghost predicate Wins(score: Score, roster: seq<NodeId>, e: nat, p: nat, n: NodeId)
    requires p <= |roster|
  {
    && (forall j :: 0 <= j < p ==> score(roster[j], e) < score(n, e))
    && (forall j :: p <= j < |roster| ==> score(roster[j], e) <= score(n, e))
  }

  lemma NewcomerLeads(score: Score, roster: seq<NodeId>, e: nat, p: nat, n: NodeId)
    requires p <= |roster| && Wins(score, roster, e, p, n)
    ensures Leads(score, Insert(roster, p, n), e, p)
  {
    var grown := Insert(roster, p, n);
    forall j | 0 <= j < |grown|
      ensures score(grown[j], e) <= score(n, e) && (j < p ==> score(grown[j], e) < score(n, e))
    {
      assert grown[j] == if j < p then roster[j] else if j == p then n else roster[j - 1];
    }
  }

  lemma LeaderStays(score: Score, roster: seq<NodeId>, e: nat, p: nat, n: NodeId, i: nat)
    requires p <= |roster| && Leads(score, roster, e, i) && !Wins(score, roster, e, p, n)
    ensures Leads(score, Insert(roster, p, n), e, if i < p then i else i + 1)
    ensures Insert(roster, p, n)[if i < p then i else i + 1] == roster[i]
  {
    var grown := Insert(roster, p, n);
    assert score(n, e) <= score(roster[i], e) && (p <= i ==> score(n, e) < score(roster[i], e));
    forall j | 0 <= j < |grown|
      ensures score(grown[j], e) <= score(roster[i], e)
      ensures j < (if i < p then i else i + 1) ==> score(grown[j], e) < score(roster[i], e)
    {
      assert grown[j] == if j < p then roster[j] else if j == p then n else roster[j - 1];
    }
  }

  /** A node added anywhere takes exactly the experts it wins; every other expert stays. */
  lemma AddedNodeTakesItsWins(score: Score, roster: seq<NodeId>, e: nat, p: nat, n: NodeId)
    requires roster != [] && p <= |roster|
    ensures Owner(score, Insert(roster, p, n), e) ==
            if Wins(score, roster, e, p, n) then n else Owner(score, roster, e)
  {
    var grown := Insert(roster, p, n);
    if Wins(score, roster, e, p, n) {
      NewcomerLeads(score, roster, e, p, n);
      LeaderIsOwner(score, grown, e, p);
    } else {
      var i := OwnerLeads(score, roster, e);
      LeaderStays(score, roster, e, p, n, i);
      LeaderIsOwner(score, grown, e, if i < p then i else i + 1);
    }
  }

  /** A node that leaves gives up its own experts and moves no others. */
  lemma RemovedNodeMovesItsOwn(score: Score, roster: seq<NodeId>, e: nat, p: nat)
    requires p < |roster| && Owner(score, roster, e) != roster[p]
    ensures roster[..p] + roster[p + 1..] != []
    ensures Owner(score, roster[..p] + roster[p + 1..], e) == Owner(score, roster, e)
  {
    var rest := roster[..p] + roster[p + 1..];
    assert Insert(rest, p, roster[p]) == roster;
    var i := OwnerLeads(score, roster, e);
    AddedNodeTakesItsWins(score, rest, e, p, roster[p]);
  }

  /** No other node of the roster reaches the owner's score. */
  ghost predicate Undisputed(score: Score, roster: seq<NodeId>, e: nat)
    requires roster != []
  {
    forall n :: n in roster && score(n, e) == score(Owner(score, roster, e), e) ==> n == Owner(score, roster, e)
  }

  function ToFront(roster: seq<NodeId>, p: nat): (r: seq<NodeId>)
    requires p < |roster|
    ensures multiset(r) == multiset(roster) && r[0] == roster[p]
  {
    assert roster == roster[..p] + [roster[p]] + roster[p + 1..];
    [roster[p]] + roster[..p] + roster[p + 1..]
  }

  /** The same members in any order, even repeated, give an undisputed expert the same owner. */
  lemma OrderIsIrrelevant(score: Score, a: seq<NodeId>, b: seq<NodeId>, e: nat)
    requires a != [] && b != [] && (forall n :: n in a <==> n in b) && Undisputed(score, a, e)
    ensures Owner(score, a, e) == Owner(score, b, e)
  {
    var i := OwnerLeads(score, a, e);
    var k := OwnerLeads(score, b, e);
    assert a[i] in b && b[k] in a;
  }

  /** Only undisputed experts are independent of the order: a tied node gets the expert by
      being listed first. */
  lemma OrderMattersOnlyForTies(score: Score, roster: seq<NodeId>, e: nat)
    requires roster != []
    ensures Undisputed(score, roster, e) <==>
            forall p: nat :: p < |roster| ==> Owner(score, ToFront(roster, p), e) == Owner(score, roster, e)
  {
    var i := OwnerLeads(score, roster, e);
    if Undisputed(score, roster, e) {
      forall p: nat | p < |roster|
        ensures Owner(score, ToFront(roster, p), e) == Owner(score, roster, e)
      {
        assert roster == roster[..p] + [roster[p]] + roster[p + 1..];
        OrderIsIrrelevant(score, roster, ToFront(roster, p), e);
      }
    } else {
      var n :| n in roster && score(n, e) == score(Owner(score, roster, e), e) && n != Owner(score, roster, e);
      var p :| 0 <= p < |roster| && roster[p] == n;
      var front := ToFront(roster, p);
      assert forall j :: 0 < j < |front| ==> front[j] in roster;
      LeaderIsOwner(score, front, e, 0);
    }
  }

  /** The experts below `n` that `me` owns, in increasing order. */
  function Owned(score: Score, roster: seq<NodeId>, me: NodeId, n: nat): seq<nat>
    requires roster != []
  {
    if n == 0 then []
    else Owned(score, roster, me, n - 1) + if Owner(score, roster, n - 1) == me then [n - 1] else []
  }

  lemma {:induction false} OwnedIsItsShare(score: Score, roster: seq<NodeId>, me: NodeId, n: nat)
    requires roster != []
    ensures Increasing(Owned(score, roster, me, n))
    ensures forall e: nat :: e in Owned(score, roster, me, n) <==> e < n && Owner(score, roster, e) == me
  {
    if n > 0 {
      OwnedIsItsShare(score, roster, me, n - 1);
      var share := Owned(score, roster, me, n - 1);
      assert forall i :: 0 <= i < |share| ==> share[i] in share;
    }
  }

  /** A node's sorted share, or nothing for a node that is not on the roster. */
  function Partition(score: Score, roster: seq<NodeId>, me: NodeId, experts: nat): Option<seq<nat>> {
    if me in roster then Some(Owned(score, roster, me, experts)) else None
  }

  /** Everybody's share at once. An empty roster cannot own an expert. */
  method Plan(score: Score, roster: seq<NodeId>, experts: nat) returns (out: Option<map<NodeId, seq<nat>>>)
    ensures out.None? <==> roster == [] && experts > 0
    ensures out.Some? ==> forall n :: n in out.value <==> n in roster
    ensures out.Some? ==> forall n :: n in roster ==> Partition(score, roster, n, experts) == Some(out.value[n])
  {
    var shares := map n | n in roster :: [];
    for e := 0 to experts
      invariant e > 0 ==> roster != []
      invariant forall n :: n in shares <==> n in roster
      invariant forall n :: n in roster ==> shares[n] == Owned(score, roster, n, e)
    {
      if roster == [] {
        return None;
      }
      var owner := Owner(score, roster, e);
      shares := shares[owner := shares[owner] + [e]];
    }
    return Some(shares);
  }

  /** The shares cover all experts, and no expert is in two of them. */
  lemma SharesPartitionTheExperts(score: Score, roster: seq<NodeId>, experts: nat, e: nat)
    requires roster != [] && e < experts
    ensures e in Owned(score, roster, Owner(score, roster, e), experts)
    ensures forall n :: e in Owned(score, roster, n, experts) ==> n == Owner(score, roster, e)
  {
    forall n
      ensures e in Owned(score, roster, n, experts) <==> Owner(score, roster, e) == n
    {
      OwnedIsItsShare(score, roster, n, experts);
    }
  }

  /** After a node joins, nobody else's share gains an expert, and what a share loses went
      to the newcomer. */
  lemma JoiningOnlyTakes(score: Score, roster: seq<NodeId>, p: nat, n: NodeId, m: NodeId, experts: nat)
    requires roster != [] && p <= |roster| && m != n
    ensures var grown := Insert(roster, p, n); forall e: nat ::
      e in Owned(score, grown, m, experts) <==>
      e in Owned(score, roster, m, experts) && e !in Owned(score, grown, n, experts)
  {
    var grown := Insert(roster, p, n);
    OwnedIsItsShare(score, roster, m, experts);
    OwnedIsItsShare(score, grown, m, experts);
    OwnedIsItsShare(score, grown, n, experts);
    forall e: nat {
      AddedNodeTakesItsWins(score, roster, e, p, n);
    }
  }
}
