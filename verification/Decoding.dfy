/**
 Plain greedy decoding: the target engine, its KV cache, and the reference loop
 that speculative decoding has to reproduce.

 A model is a function from the prefix it has seen to its most likely next
 token; its KV cache is the sequence of tokens whose keys and values it holds.
 */
module Decoding {

  type Token = int
  type Model = seq<Token> -> Token

  const STOP_TOKENS: seq<string> := ["<|im_end|>", "<|endoftext|>", "<|im_start|>"]

  /** What the decoding loops need of a tokenizer. */
  datatype Tokenizer = Tokenizer(decode: Token -> string, eosIds: set<Token>) {

    /** The token ends the stream: it is an eos id, or its text holds a stop token. */
    predicate Stops(t: Token) {
      t in eosIds || exists i :: 0 <= i < |STOP_TOKENS| && Contains(decode(t), STOP_TOKENS[i])
    }

    /** The chunks yielded for a run of tokens. */
    function Chunks(ts: seq<Token>): (chunks: seq<string>)
      ensures |chunks| == |ts|
    {
      seq(|ts|, i requires 0 <= i < |ts| => decode(ts[i]))
    }
  }

  predicate Contains(text: string, part: string) {
    exists i :: 0 <= i <= |text| && StartsAt(text, part, i)
  }

  predicate StartsAt(text: string, part: string, i: nat) {
    i + |part| <= |text| && text[i..i + |part|] == part
  }

  /** The stream greedy decoding emits after `context`, at most `budget` tokens of it. */
  function Greedy(next: Model, tok: Tokenizer, context: seq<Token>, budget: int): (ts: seq<Token>)
    decreases budget
  {
    if budget <= 0 then []
    else
      var t := next(context);
      if tok.Stops(t) then [] else [t] + Greedy(next, tok, context + [t], budget - 1)
  }

  /** Every token of `ts` is the model's own choice after `context` and the tokens before it. */
  ghost predicate OwnChoices(next: Model, context: seq<Token>, ts: seq<Token>) {
    forall i :: 0 <= i < |ts| ==> ts[i] == next(context + ts[..i])
  }

  lemma OwnChoicesSplit(next: Model, context: seq<Token>, ts: seq<Token>)
    requires ts != []
    ensures OwnChoices(next, context, ts)
       <==> ts[0] == next(context) && OwnChoices(next, context + [ts[0]], ts[1..])
  {
    var c, rest := context + [ts[0]], ts[1..];
    assert context + ts[..0] == context;
    forall i | 0 <= i < |rest|
      ensures c + rest[..i] == context + ts[..i + 1]
    {
    }
    if ts[0] == next(context) && OwnChoices(next, c, rest) {
      forall i | 0 <= i < |ts|
        ensures ts[i] == next(context + ts[..i])
      {
        assert i > 0 ==> ts[i] == rest[i - 1];
      }
    }
  }

  lemma OwnChoicesExtend(next: Model, context: seq<Token>, ts: seq<Token>, t: Token)
    requires OwnChoices(next, context, ts) && t == next(context + ts)
    ensures OwnChoices(next, context, ts + [t])
  {
    forall i | 0 <= i < |ts + [t]|
      ensures (ts + [t])[i] == next(context + (ts + [t])[..i])
    {
      assert (ts + [t])[..i] == ts[..i];
      assert ts[..|ts|] == ts;
    }
  }

  ghost predicate NoneStops(tok: Tokenizer, ts: seq<Token>) {
    forall i :: 0 <= i < |ts| ==> !tok.Stops(ts[i])
  }

  /** A complete greedy stream, described without recursion: the model's own choices,
      none of them a stop, ended by the budget or by a stop, and by nothing else. */
  ghost predicate GreedyStream(next: Model, tok: Tokenizer, context: seq<Token>, budget: int, ts: seq<Token>) {
    && OwnChoices(next, context, ts)
    && NoneStops(tok, ts)
    && |ts| <= (if budget <= 0 then 0 else budget)
    && (|ts| < budget ==> tok.Stops(next(context + ts)))
  }

  /** Without budget, or when the first choice stops, only the empty stream fits. */
  lemma EmptyStream(next: Model, tok: Tokenizer, context: seq<Token>, budget: int, ts: seq<Token>)
    requires budget <= 0 || tok.Stops(next(context))
    ensures GreedyStream(next, tok, context, budget, ts) <==> ts == []
  {
    assert context + [] == context;
    if ts != [] {
      assert ts[..0] == [] && (OwnChoices(next, context, ts) ==> ts[0] == next(context + ts[..0]));
    }
  }

  lemma NoneStopsSplit(tok: Tokenizer, ts: seq<Token>)
    requires ts != []
    ensures NoneStops(tok, ts) <==> !tok.Stops(ts[0]) && NoneStops(tok, ts[1..])
  {
    assert ts == [ts[0]] + ts[1..];
  }

  /** A stream that starts with the model's choice fits if and only if what follows does. */
  lemma StreamStep(next: Model, tok: Tokenizer, context: seq<Token>, budget: int, ts: seq<Token>)
    requires budget > 0 && !tok.Stops(next(context)) && ts != []
    ensures GreedyStream(next, tok, context, budget, ts)
       <==> ts[0] == next(context) && GreedyStream(next, tok, context + [ts[0]], budget - 1, ts[1..])
  {
    OwnChoicesSplit(next, context, ts);
    NoneStopsSplit(tok, ts);
    assert context + ts == context + [ts[0]] + ts[1..];
  }

  /** `Greedy` is the one stream that fits the description. */
  lemma {:induction false} GreedyIsTheStream(next: Model, tok: Tokenizer, context: seq<Token>, budget: int, ts: seq<Token>)
    ensures GreedyStream(next, tok, context, budget, ts) <==> ts == Greedy(next, tok, context, budget)
    decreases budget
  {
    var t := next(context);
    if budget <= 0 || tok.Stops(t) {
      EmptyStream(next, tok, context, budget, ts);
    } else if ts == [] {
      assert context + [] == context;
    } else {
      StreamStep(next, tok, context, budget, ts);
      GreedyIsTheStream(next, tok, context + [t], budget - 1, ts[1..]);
      assert ts == [ts[0]] + ts[1..];
    }
  }

  /** A stop string occurs somewhere in the text. */
  ghost predicate HoldsStopText(text: string) {
    exists i :: 0 <= i <= |text| && StopTextAt(text, i)
  }

  ghost predicate StopTextAt(text: string, i: nat) {
    || (i + 10 <= |text| && text[i..i + 10] == "<|im_end|>")
    || (i + 13 <= |text| && text[i..i + 13] == "<|endoftext|>")
    || (i + 12 <= |text| && text[i..i + 12] == "<|im_start|>")
  }

  ghost predicate IsStop(tok: Tokenizer, t: Token) {
    t in tok.eosIds || HoldsStopText(tok.decode(t))
  }

  /** The stop test, spelled out. */
  lemma StopsIsStop(tok: Tokenizer, t: Token)
    ensures tok.Stops(t) <==> IsStop(tok, t)
  {
    var text := tok.decode(t);
    assert |STOP_TOKENS[0]| == 10 && |STOP_TOKENS[1]| == 13 && |STOP_TOKENS[2]| == 12;
    if i :| 0 <= i <= |text| && StopTextAt(text, i) {
      assert StartsAt(text, STOP_TOKENS[0], i) || StartsAt(text, STOP_TOKENS[1], i) || StartsAt(text, STOP_TOKENS[2], i);
      assert Contains(text, STOP_TOKENS[0]) || Contains(text, STOP_TOKENS[1]) || Contains(text, STOP_TOKENS[2]);
    }
    if k :| 0 <= k < |STOP_TOKENS| && Contains(text, STOP_TOKENS[k]) {
      var i :| 0 <= i <= |text| && StartsAt(text, STOP_TOKENS[k], i);
      assert StopTextAt(text, i);
    }
  }

  /** `out` are the texts of the tokens `ts`: own choices, none an eos or with a stop string in its
      text, ended by the budget or because the next choice is one. */
  ghost predicate YieldsFor(next: Model, tok: Tokenizer, context: seq<Token>, budget: int, out: seq<string>, ts: seq<Token>) {
    && OwnChoices(next, context, ts) && |out| == |ts| <= (if budget <= 0 then 0 else budget)
    && (forall i :: 0 <= i < |ts| ==> out[i] == tok.decode(ts[i]) && ts[i] !in tok.eosIds && !HoldsStopText(out[i]))
    && (|ts| < budget ==> IsStop(tok, next(context + ts)))
  }

  /** The yielded texts are those of some such tokens. */
  ghost predicate Yields(next: Model, tok: Tokenizer, context: seq<Token>, budget: int, out: seq<string>) {
    exists ts :: YieldsFor(next, tok, context, budget, out, ts)
  }

  /** The greedy chunks are what such a run yields, and nothing else is. */
  lemma GreedyYields(next: Model, tok: Tokenizer, context: seq<Token>, budget: int, out: seq<string>)
    ensures Yields(next, tok, context, budget, out) <==> out == tok.Chunks(Greedy(next, tok, context, budget))
  {
    var greedy := Greedy(next, tok, context, budget);
    GreedyIsTheStream(next, tok, context, budget, greedy);
    StreamYields(next, tok, context, budget, greedy);
    if ts :| YieldsFor(next, tok, context, budget, out, ts) {
      forall i | 0 <= i < |ts|
        ensures !tok.Stops(ts[i])
      {
        StopsIsStop(tok, ts[i]);
      }
      StopsIsStop(tok, next(context + ts));
      GreedyIsTheStream(next, tok, context, budget, ts);
      assert out == tok.Chunks(ts);
    }
  }

  lemma StreamYields(next: Model, tok: Tokenizer, context: seq<Token>, budget: int, ts: seq<Token>)
    requires GreedyStream(next, tok, context, budget, ts)
    ensures YieldsFor(next, tok, context, budget, tok.Chunks(ts), ts)
  {
    forall i | 0 <= i < |ts|
      ensures !IsStop(tok, ts[i])
    {
      StopsIsStop(tok, ts[i]);
    }
    StopsIsStop(tok, next(context + ts));
  }

  /** What will have been yielded when decoding goes on greedily from `context`. */
  ghost function Promised(next: Model, tok: Tokenizer, out: seq<string>, context: seq<Token>, budget: int): seq<string> {
    out + tok.Chunks(Greedy(next, tok, context, budget))
  }

  lemma PromiseKept(next: Model, tok: Tokenizer, out: seq<string>, context: seq<Token>, budget: int)
    requires budget > 0 && !tok.Stops(next(context))
    ensures var t := next(context);
      Promised(next, tok, out + [tok.decode(t)], context + [t], budget - 1) == Promised(next, tok, out, context, budget)
  {
  }

  /** The target engine; `cache` is what its KV cache holds. */
  class Engine {
    const next: Model
    var cache: seq<Token>
    ghost var passes: nat  // forward passes so far
    ghost var fed: nat     // tokens fed to them

    constructor (next: Model)
      ensures this.next == next && cache == []
    {
      this.next := next;
      cache := [];
    }

    method ResetCache()
      modifies this`cache
      ensures cache == []
    {
      cache := [];
    }

    /** One forward pass: the argmax of the logits at every fed position. */
    method Forward(inp: seq<Token>) returns (preds: seq<Token>)
      modifies this
      ensures cache == old(cache) + inp
      ensures |preds| == |inp|
      ensures forall i :: 0 <= i < |inp| ==> preds[i] == next(old(cache) + inp[..i + 1])
      ensures passes == old(passes) + 1 && fed == old(fed) + |inp|
    {
      passes, fed := passes + 1, fed + |inp|;
      var held := cache;
      preds := seq(|inp|, i requires 0 <= i < |inp| => next(held + inp[..i + 1]));
      cache := cache + inp;
    }

    /** Forget the last `n` positions, or everything when there are fewer. */
    method Trim(n: nat)
      modifies this`cache
      ensures cache == old(cache)[..if n <= |old(cache)| then |old(cache)| - n else 0]
    {
      cache := cache[..if n <= |cache| then |cache| - n else 0];
    }
  }

  /** The reference loop: one forward per emitted token. */
  method GenerateStream(engine: Engine, tok: Tokenizer, prompt: seq<Token>, maxTokens: int)
    returns (out: seq<string>, forwards: nat)
    requires |prompt| > 0
    modifies engine
    ensures out == tok.Chunks(Greedy(engine.next, tok, prompt, maxTokens)) && Yields(engine.next, tok, prompt, maxTokens, out)
    ensures forwards == 1 + |out| == engine.passes - old(engine.passes)
    ensures engine.fed == old(engine.fed) + |prompt| + |out|
  {
    engine.ResetCache();
    var preds := engine.Forward(prompt);
    assert prompt[..|prompt|] == prompt;
    var last := preds[|preds| - 1];
    assert [] + prompt == prompt;
    out, forwards := [], 1;
    var n := 0;
    while n < maxTokens
      invariant 0 <= n == |out| && forwards == 1 + n == engine.passes - old(engine.passes)
      invariant engine.fed == old(engine.fed) + |prompt| + n
      invariant last == engine.next(engine.cache)
      invariant Promised(engine.next, tok, out, engine.cache, maxTokens - n)
             == Promised(engine.next, tok, [], prompt, maxTokens)
    {
      if tok.Stops(last) {
        break;
      }
      PromiseKept(engine.next, tok, out, engine.cache, maxTokens - n);
      out := out + [tok.decode(last)];
      preds := engine.Forward([last]);
      assert [last][..1] == [last];
      last := preds[0];
      forwards := forwards + 1;
      n := n + 1;
    }
    assert out == Promised(engine.next, tok, [], prompt, maxTokens);
    GreedyYields(engine.next, tok, prompt, maxTokens, out);
  }
}
