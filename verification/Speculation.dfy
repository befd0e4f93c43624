/**
 Speculative decoding: a batch of drafts is verified in one forward pass, the
 matching ones are kept, the target's own token follows them, and the KV cache is
 rolled back over the rest. The stream is the greedy one, whatever is drafted.
 */
module Speculation {
  import opened Decoding
  import opened Drafting

  /** Where drafts come from. An oracle answers the n-th request in any way at all:
      wrong, empty and over-long drafts, and every stateful source, are among them. */
  datatype DraftSource =
    | Oracle(propose: (nat, seq<Token>) -> seq<Token>)
    | PromptLookup
    | SmallModel(model: ModelDraft)
  {
    function Footprint(): set<object> {
      if SmallModel? then {model} else {}
    }

    /** Between rounds: a draft model's cache is a proper prefix of the context, and no
        round so far had to heal it. */
    ghost predicate InStep(context: seq<Token>)
      reads Footprint()
    {
      SmallModel? ==> model.Valid() && model.cached < context && model.healed == 0
    }

    method Reset()
      modifies Footprint()
      ensures SmallModel? ==> model.Valid() && model.cached == [] && model.healed == 0
    {
      if SmallModel? {
        model.Reset();
      }
    }

    method Draft(round: nat, context: seq<Token>, k: nat) returns (drafts: seq<Token>)
      requires context != [] && InStep(context)
      modifies Footprint()
      ensures SmallModel? ==> drafts == Continuation(model.next, context, k)
      ensures SmallModel? ==>
        && model.Valid() && model.healed == 0
        && (k >= 1 ==> model.cached == context + drafts[..k - 1] && model.pending == k - 1)
        && (k == 0 ==> model.cached < context)
    {
      match this
      case Oracle(propose) => drafts := propose(round, context);
      case PromptLookup => drafts := PromptLookupDraft(context, k);
      case SmallModel(m) => drafts := m.Call(context, k);
    }

    /** After verification of `drafts`, of which the first `m` were accepted. */
    method Rollback(ghost context: seq<Token>, ghost drafts: seq<Token>, rejected: nat)
      requires rejected <= |drafts|
      requires SmallModel? ==> model.Valid() && model.healed == 0
      requires SmallModel? && |drafts| >= 1 ==>
        && model.cached == context + drafts[..|drafts| - 1] && model.pending == |drafts| - 1
      requires SmallModel? && drafts == [] ==> model.cached < context
      modifies Footprint()
      ensures SmallModel? ==>
        && model.Valid() && model.healed == 0
        && model.cached <= context + drafts[..|drafts| - rejected]
    {
      if SmallModel? && rejected > 0 {
        model.Trim(rejected);
        assert model.cached == context + drafts[..|drafts| - rejected];
      }
    }
  }

  datatype Stats = Stats(drafted: nat, accepted: nat, forwards: nat)

  /** What one forward pass over `cur` and the drafts predicts after each of them. */
  ghost predicate Verified(next: Model, context: seq<Token>, drafts: seq<Token>, preds: seq<Token>) {
    |preds| == |drafts| + 1 && forall i :: 0 <= i <= |drafts| ==> preds[i] == next(context + drafts[..i])
  }

  /** The longest run of drafts that match the predictions. */
  ghost predicate Accepted(drafts: seq<Token>, preds: seq<Token>, m: nat)
    requires |preds| == |drafts| + 1
  {
    && m <= |drafts| && (forall i :: 0 <= i < m ==> drafts[i] == preds[i])
    && (m < |drafts| ==> drafts[m] != preds[m])
  }

  method AcceptDrafts(drafts: seq<Token>, preds: seq<Token>) returns (m: nat)
    requires |preds| == |drafts| + 1
    ensures Accepted(drafts, preds, m)
  {
    m := 0;
    while m < |drafts| && drafts[m] == preds[m]
      invariant m <= |drafts| && forall i :: 0 <= i < m ==> drafts[i] == preds[i]
    {
      m := m + 1;
    }
  }

  /** Accepted drafts and the correction after them are what the target itself would
      have chosen, one token at a time. */
  lemma AcceptedAreOwnChoices(next: Model, context: seq<Token>, drafts: seq<Token>, preds: seq<Token>, m: nat)
    requires Verified(next, context, drafts, preds) && Accepted(drafts, preds, m)
    ensures OwnChoices(next, context, drafts[..m] + [preds[m]])
  {
    var ts := drafts[..m] + [preds[m]];
    forall i | 0 <= i < |ts|
      ensures ts[i] == next(context + ts[..i])
    {
      assert ts[..i] == drafts[..i];
    }
  }

  /** Speculation never rejects a draft that greedy decoding would have emitted. */
  lemma AcceptedIsMaximal(next: Model, context: seq<Token>, drafts: seq<Token>, preds: seq<Token>, m: nat, j: nat)
    requires Verified(next, context, drafts, preds) && Accepted(drafts, preds, m)
    requires j <= |drafts|
    ensures OwnChoices(next, context, drafts[..j]) <==> j <= m
  {
    if j <= m {
      AcceptedAreOwnChoices(next, context, drafts, preds, m);
      var ts := drafts[..m] + [preds[m]];
      forall i | 0 <= i < j
        ensures drafts[..j][i] == next(context + drafts[..j][..i])
      {
        assert drafts[..j][..i] == ts[..i];
        assert drafts[..j][i] == ts[i];
      }
    } else {
      assert drafts[..j][..m] == drafts[..m];
      assert drafts[..j][m] == drafts[m] != preds[m];
    }
  }

  /** Yield the tokens of one round, stopping at a stop token or at the budget. */
  method EmitRound(ghost next: Model, tok: Tokenizer, outTokens: seq<Token>,
                   out: seq<string>, context: seq<Token>, emitted: nat, maxTokens: int)
    returns (out': seq<string>, context': seq<Token>, emitted': nat, stop: bool)
    requires emitted < maxTokens && OwnChoices(next, context, outTokens)
    ensures stop ==> out' == Promised(next, tok, out, context, maxTokens - emitted)
    ensures !stop ==>
      && emitted' == emitted + |outTokens| < maxTokens
      && context' == context + outTokens
      && Promised(next, tok, out', context', maxTokens - emitted')
         == Promised(next, tok, out, context, maxTokens - emitted)
    ensures |out'| == |out| + emitted' - emitted && emitted <= emitted' <= emitted + |outTokens|
  {
    out', context', emitted', stop := out, context, emitted, false;
    var i := 0;
    assert context + outTokens[..0] == context;
    while i < |outTokens|
      invariant 0 <= i <= |outTokens| && |out'| == |out| + i
      invariant emitted' == emitted + i < maxTokens && context' == context + outTokens[..i]
      invariant Promised(next, tok, out', context', maxTokens - emitted')
             == Promised(next, tok, out, context, maxTokens - emitted)
    {
      var t := outTokens[i];
      assert t == next(context');
      if tok.Stops(t) {
        stop := true;
        return;
      }
      PromiseKept(next, tok, out', context', maxTokens - emitted');
      out' := out' + [tok.decode(t)];
      emitted' := emitted' + 1;
      context' := context' + [t];
      assert context' == context + outTokens[..i + 1];
      if emitted' >= maxTokens {
        stop := true;
        return;
      }
      i := i + 1;
    }
    assert outTokens[..i] == outTokens;
  }

  /** The target's share of a round: verify the drafts in one forward pass, keep those
      that match, and roll the KV cache back over the rest. */
  method VerifyDrafts(engine: Engine, context: seq<Token>, cur: Token, drafts: seq<Token>) returns (preds: seq<Token>, m: nat)
    requires context == engine.cache + [cur]
    modifies engine
    ensures Verified(engine.next, context, drafts, preds) && Accepted(drafts, preds, m)
    ensures engine.cache == context + drafts[..m]
    ensures engine.passes == old(engine.passes) + 1 && engine.fed == old(engine.fed) + 1 + |drafts|
  {
    preds := engine.Forward([cur] + drafts);
    VerifiedByForward(engine.next, old(engine.cache), cur, context, drafts, preds);
    m := AcceptDrafts(drafts, preds);
    var rejected := |drafts| - m;
    if rejected > 0 {
      engine.Trim(rejected);
    }
    assert engine.cache == context + drafts[..m];
  }

  lemma VerifiedByForward(next: Model, held: seq<Token>, cur: Token, context: seq<Token>,
                          drafts: seq<Token>, preds: seq<Token>)
    requires context == held + [cur] && |preds| == |drafts| + 1
    requires forall i :: 0 <= i < |preds| ==> preds[i] == next(held + ([cur] + drafts)[..i + 1])
    ensures Verified(next, context, drafts, preds)
  {
    forall i | 0 <= i <= |drafts|
      ensures preds[i] == next(context + drafts[..i])
    {
      assert held + ([cur] + drafts)[..i + 1] == context + drafts[..i];
    }
  }

  /** One round: draft, verify in one pass, accept, roll both caches back. */
  method VerifyRound(engine: Engine, draft: DraftSource, round: nat, context: seq<Token>, k: nat, cur: Token)
    returns (outTokens: seq<Token>, drafted: nat, accepted: nat)
    requires context == engine.cache + [cur] && draft.InStep(context)
    modifies engine, draft.Footprint()
    ensures accepted <= drafted && |outTokens| == accepted + 1
    ensures OwnChoices(engine.next, context, outTokens)
    ensures context + outTokens == engine.cache + [outTokens[accepted]]
    ensures draft.InStep(context + outTokens)
    ensures engine.passes == old(engine.passes) + 1 && engine.fed == old(engine.fed) + 1 + drafted
    ensures |engine.cache| == |old(engine.cache)| + 1 + accepted
  {
    var drafts := draft.Draft(round, context, k);
    var preds, m := VerifyDrafts(engine, context, cur, drafts);
    draft.Rollback(context, drafts, |drafts| - m);
    AcceptedAreOwnChoices(engine.next, context, drafts, preds, m);
    outTokens, drafted, accepted := drafts[..m] + [preds[m]], |drafts|, m;
    assert context + outTokens == context + drafts[..m] + [preds[m]];
  }

  /** The rounds of a run: its forward passes without the prefill, which a prompt of one token does
      not need. */
  function Rounds(prompt: nat, stats: Stats): int {
    stats.forwards - if prompt > 1 then 1 else 0
  }

  /** The statistics are true of the engine: every pass is counted, each round fed one token and its
      drafts, and left one position and its accepted drafts in the cache. */
  ghost predicate Counted(prompt: nat, stats: Stats, passes: int, fed: int, cached: int) {
    var rounds := Rounds(prompt, stats);
    && stats.forwards == passes && fed == prompt - 1 + rounds + stats.drafted
    && cached == prompt - 1 + rounds + stats.accepted
  }

  /**
   The speculative loop. For every draft source the stream is the greedy stream; the
   target's cache is the context without its last token between rounds; and at most
   one forward pass more than plain decoding is spent.
   */
  method SpecGenerateStream(engine: Engine, tok: Tokenizer, prompt: seq<Token>, maxTokens: int, k: nat,
                            draft: DraftSource)
    returns (out: seq<string>, stats: Stats)
    requires prompt != []
    modifies engine, draft.Footprint()
    ensures out == tok.Chunks(Greedy(engine.next, tok, prompt, maxTokens)) && Yields(engine.next, tok, prompt, maxTokens, out)
    ensures stats.accepted <= stats.drafted
    ensures stats.forwards <= |out| + 2
    ensures Counted(|prompt|, stats, engine.passes - old(engine.passes), engine.fed - old(engine.fed), |engine.cache|)
    ensures |out| <= stats.accepted + Rounds(|prompt|, stats)
    ensures draft.SmallModel? ==> draft.model.healed == 0
  {
    engine.ResetCache();
    draft.Reset();
    var context := prompt;
    stats := Stats(0, 0, 0);
    if |context| > 1 {
      var _ := engine.Forward(context[..|context| - 1]);
      stats := stats.(forwards := 1);
    }
    var cur := context[|context| - 1];
    var emitted, round := 0, 0;
    out := [];
    while emitted < maxTokens
      invariant 0 <= emitted == |out| && |context| == |prompt| + emitted
      invariant Promised(engine.next, tok, out, context, maxTokens - emitted)
             == Promised(engine.next, tok, [], prompt, maxTokens)
      invariant context == engine.cache + [cur]
      invariant draft.InStep(context)
      invariant stats.accepted <= stats.drafted
      invariant emitted == stats.accepted + round  // a full round yields its accepted drafts and one more
      invariant stats.forwards <= round + 1 && Rounds(|prompt|, stats) == round
      invariant Counted(|prompt|, stats, engine.passes - old(engine.passes), engine.fed - old(engine.fed), |engine.cache|)
      decreases maxTokens - emitted
    {
      var outTokens, drafted, accepted := VerifyRound(engine, draft, round, context, k, cur);
      stats := Stats(stats.drafted + drafted, stats.accepted + accepted, stats.forwards + 1);
      var stop;
      out, context, emitted, stop :=
        EmitRound(engine.next, tok, outTokens, out, context, emitted, maxTokens);
      if stop {
        break;
      }
      cur := outTokens[|outTokens| - 1];
      round := round + 1;
    }
    assert out == Promised(engine.next, tok, [], prompt, maxTokens);
    GreedyYields(engine.next, tok, prompt, maxTokens, out);
  }
}
