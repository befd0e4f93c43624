/**
 Draft sources: prompt lookup, and a small draft model with a KV cache of its own
 that survives from round to round.
 */
module Drafting {
  import opened Decoding

  /******* Prompt lookup *******/

  /** The last `n` tokens of the context also start at `start`, with something after them. */
  predicate Repeats(context: seq<Token>, n: nat, start: int) {
    && 0 < n < |context| && 0 <= start < |context| - n
    && context[start..start + n] == context[|context| - n..]
  }

  /** The token at `i` is the one `d` places before it. */
  ghost predicate SameAsBefore(context: seq<Token>, i: int, d: int) {
    0 <= i < |context| && 0 <= i - d < |context| && context[i] == context[i - d]
  }

  ghost predicate Echoes(context: seq<Token>, from: int, d: int) {
    forall i :: from <= i < |context| ==> SameAsBefore(context, i, d)
  }

  /** Position by position: each of the last `n` tokens is equal to the one that many places before
      it, and the earlier occurrence does not reach the end. */
  lemma RepeatsAtDistance(context: seq<Token>, n: nat, start: int)
    ensures Repeats(context, n, start)
       <==> 1 <= n && 0 <= start && start + n < |context| && Echoes(context, |context| - n, |context| - n - start)
  {
    if 1 <= n && 0 <= start && start + n < |context| {
      var a, b := context[start..start + n], context[|context| - n..];
      var from := |context| - n;
      var d := from - start;
      if Echoes(context, from, d) {
        forall i | 0 <= i < n
          ensures a[i] == b[i]
        {
          assert SameAsBefore(context, from + i, d);
        }
        assert a == b;
      }
      if a == b {
        forall i | from <= i < |context|
          ensures SameAsBefore(context, i, d)
        {
          assert a[i - from] == b[i - from];
        }
      }
    }
  }

  /** What followed that earlier occurrence, at most `k` tokens. */
  function Followers(context: seq<Token>, n: nat, start: int, k: nat): (ts: seq<Token>)
    requires Repeats(context, n, start)
    ensures |ts| == (if k <= |context| - start - n then k else |context| - start - n)
    ensures forall i :: 0 <= i < |ts| ==> ts[i] == context[start + n + i]
    ensures |ts| <= k && (k > 0 ==> ts != [])
  {
    context[start + n..if start + n + k <= |context| then start + n + k else |context|]
  }

  /** No suffix longer than `n`, and up to `maxNgram` tokens, has an earlier occurrence. */
  ghost predicate NoLongerMatch(context: seq<Token>, n: nat, maxNgram: nat) {
    forall n', s :: n < n' <= maxNgram ==> !Repeats(context, n', s)
  }

  /** No later occurrence of the suffix of length `n`. */
  ghost predicate NewestMatch(context: seq<Token>, n: nat, start: int) {
    forall s :: start < s ==> !Repeats(context, n, s)
  }

  /** Propose what followed the newest occurrence of the longest repeated suffix. */
  method PromptLookupDraft(context: seq<Token>, k: nat, maxNgram: nat := 3) returns (drafts: seq<Token>)
    ensures drafts == [] <==> k == 0 || NoLongerMatch(context, 0, maxNgram)
    ensures drafts != [] ==> exists n, start ::
              && 1 <= n <= maxNgram && Repeats(context, n, start)
              && NoLongerMatch(context, n, maxNgram) && NewestMatch(context, n, start)
              && drafts == Followers(context, n, start, k)
  {
    var n := maxNgram;
    while n > 0
      invariant 0 <= n <= maxNgram
      invariant k == 0 || NoLongerMatch(context, n, maxNgram)
    {
      if |context| > n {
        var suffix := context[|context| - n..];
        var start := |context| - n - 1;
        while start >= 0
          invariant -1 <= start < |context| - n
          invariant k == 0 || NewestMatch(context, n, start)
        {
          if context[start..start + n] == suffix {
            var cont := Followers(context, n, start, k);
            if cont != [] {
              return cont;
            }
          }
          start := start - 1;
        }
      }
      n := n - 1;
    }
    drafts := [];
  }

  /******* The draft model *******/

  /** What the draft model proposes when it is run afresh on the whole context. */
  function Continuation(next: Model, context: seq<Token>, k: int): (ts: seq<Token>)
    ensures |ts| == if k <= 0 then 0 else k
    decreases k
  {
    if k <= 0 then [] else var t := next(context); [t] + Continuation(next, context + [t], k - 1)
  }

  /** A continuation is the model's own choices, so a prefix of it is the shorter continuation. */
  lemma {:induction false} ContinuationIsOwnChoices(next: Model, context: seq<Token>, k: int, ts: seq<Token>)
    ensures OwnChoices(next, context, ts) && |ts| == (if k <= 0 then 0 else k)
       <==> ts == Continuation(next, context, k)
    decreases k
  {
    if k > 0 && |ts| == k {
      OwnChoicesSplit(next, context, ts);
      ContinuationIsOwnChoices(next, context + [ts[0]], k - 1, ts[1..]);
      assert ts == [ts[0]] + ts[1..];
    }
  }

  /** `n` is the length of the longest common prefix of the two. */
  ghost predicate CommonPrefix(a: seq<Token>, b: seq<Token>, n: nat) {
    && n <= |a| && n <= |b| && a[..n] == b[..n]
    && (n < |a| && n < |b| ==> a[n] != b[n])
  }

  class ModelDraft {
    const next: Model
    var cache: seq<Token>   // tokens the KV cache of the draft model holds
    var cached: seq<Token>  // the bookkeeping list kept beside it
    var pending: nat        // trailing entries of `cached` that are unverified drafts
    ghost var healed: nat   // tokens dropped by `Sync` since the last reset

    ghost predicate Valid()
      reads this
    {
      cache == cached && pending <= |cached|
    }

    constructor (next: Model)
      ensures Valid() && this.next == next && cached == [] && pending == 0 && healed == 0
    {
      this.next := next;
      cache, cached, pending, healed := [], [], 0, 0;
    }

    method Reset()
      modifies this
      ensures Valid() && cached == [] && pending == 0 && healed == 0
    {
      cache, cached, pending, healed := [], [], 0, 0;
    }

    method TrimCache(n: int)
      requires Valid() && n <= |cached|
      modifies this`cache, this`cached
      ensures cache == cached == if n <= 0 then old(cached) else old(cached)[..|old(cached)| - n]
    {
      if n <= 0 {
        return;
      }
      cache := cache[..|cache| - n];
      cached := cached[..|cached| - n];
    }

    /** `n` of the last drafts were rejected. The last draft was never fed, so the
        cache holds one less of them than were proposed. */
    method Trim(n: int)
      requires Valid()
      modifies this
      ensures Valid() && healed == old(healed)
      ensures n <= 0 || old(pending) == 0 ==> cached == old(cached) && pending == old(pending)
      ensures n > 0 && old(pending) > 0 ==>
        && pending == 0
        && cached == old(cached)[..|old(cached)| - (if old(pending) <= n - 1 then old(pending) else n - 1)]
    {
      if n <= 0 || pending == 0 {
        return;
      }
      var drop := if pending <= n - 1 then pending else n - 1;
      TrimCache(drop);
      pending := 0;
    }

    /** Drop from the cache whatever is not a prefix of the context. */
    method Sync(context: seq<Token>) returns (n: nat)
      requires Valid()
      modifies this
      ensures Valid() && pending == 0
      ensures CommonPrefix(old(cached), context, n)
      ensures cached == context[..n] && healed == old(healed) + |old(cached)| - n
    {
      n := 0;
      var lim := if |cached| <= |context| then |cached| else |context|;
      while n < lim && cached[n] == context[n]
        invariant 0 <= n <= lim && cached[..n] == context[..n]
      {
        n := n + 1;
      }
      healed := healed + |cached| - n;
      TrimCache(|cached| - n);
      pending := 0;
    }

    /** Feed tokens through the draft model and read its next choice. */
    method Feed(feed: seq<Token>) returns (t: Token)
      requires Valid() && feed != []
      modifies this`cache, this`cached
      ensures cache == cached == old(cached) + feed && t == next(cached)
    {
      cache := cache + feed;
      cached := cached + feed;
      t := next(cache);
    }

    /** Draft `k` tokens. Whatever the cache held, the result is the stateless one. */
    method Call(context: seq<Token>, k: int) returns (drafts: seq<Token>)
      requires Valid() && context != []
      modifies this
      ensures Valid()
      ensures drafts == Continuation(next, context, k)
      ensures k >= 1 ==> cached == context + drafts[..k - 1] && pending == k - 1
      ensures k <= 0 ==> cached <= context && |cached| < |context| && pending == 0
      ensures old(cached) <= context ==> healed == old(healed)
    {
      var n := Sync(context);
      assert old(cached) <= context ==> n == |old(cached)|;
      label synced:
      var feed := context[n..];
      if feed == [] {
        TrimCache(1);
        feed := [context[|context| - 1]];
      }
      assert cached + feed == context;
      drafts := [];
      assert context + drafts == context;
      var i := 0;
      while i < k
        invariant 0 <= i && (k >= 0 ==> i <= k) && (k < 0 ==> i == 0)
        invariant Valid() && pending == 0 && |drafts| == i && feed != []
        invariant cached + feed == context + drafts
        invariant i > 0 ==> feed == [drafts[i - 1]] && cached == context + drafts[..i - 1]
        invariant i == 0 ==> cached <= context && |cached| < |context|
        invariant healed == old@synced(healed)
        invariant OwnChoices(next, context, drafts)
      {
        var t := Feed(feed);
        assert cached == context + drafts;
        OwnChoicesExtend(next, context, drafts, t);
        drafts := drafts + [t];
        feed := [t];
        i := i + 1;
      }
      ContinuationIsOwnChoices(next, context, k, drafts);
      pending := if k - 1 <= 0 then 0 else k - 1;
    }
  }
}
