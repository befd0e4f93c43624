/**
 The token selector of sparse attention: which positions each query may attend to.
 Complete blocks of `ratio` tokens are scored, the best `topk` kept, and the incomplete
 tail always kept.
 */
module SparseAttention {
  import opened Collections
  import opened Arithmetic
  import opened Sorting
  import opened UnstableSorting

  /** `n` positions from `lo` on. */
  function Range(lo: nat, n: nat): (s: seq<nat>)
    ensures |s| == n && forall i :: 0 <= i < n ==> s[i] == lo + i
  {
    seq(n, i requires 0 <= i < n => lo + i)
  }

  lemma InRange(lo: nat, n: nat, t: nat)
    ensures t in Range(lo, n) <==> lo <= t < lo + n
  {
    if lo <= t < lo + n {
      assert Range(lo, n)[t - lo] == t;
    }
  }

  lemma DistinctConcat(a: seq<nat>, b: seq<nat>)
    requires Distinct(a) && Distinct(b) && forall x :: x in b ==> x !in a
    ensures Distinct(a + b)
  {
    var c := a + b;
    forall i, j | 0 <= i < j < |c|
      ensures c[i] != c[j]
    {
      if i < |a| <= j {
        assert b[j - |a|] in b && a[i] in a;
      }
    }
  }

  type IndexKey = seq<int>
  type IndexQuery = seq<int>

  /** `score` is the rectified relevance of a block to a query: pooling, normalisation and
      rotary position are part of it, and only the order of scores matters. */
  datatype Indexer = Indexer(ratio: nat, topk: nat, score: (IndexQuery, seq<IndexKey>, nat) -> int) {
    predicate Valid() {
      ratio > 0
    }

    function Block(raw: seq<IndexKey>, b: nat): seq<IndexKey>
      requires Mul(b + 1, ratio) <= |raw|
    {
      raw[Mul(b, ratio)..Mul(b + 1, ratio)]
    }

    /** Blocks complete at position `qpos`. */
    function Complete(qpos: nat): (n: nat)
      requires Valid()
      ensures Mul(n, ratio) <= qpos + 1 < Mul(n, ratio) + ratio
    {
      QuotRemDivide(qpos + 1, ratio);
      Quot(qpos + 1, ratio)
    }

    /** Negated scores; a block the query cannot see yet scores minus infinity. */
    function SortKeys(q: IndexQuery, raw: seq<IndexKey>, qpos: nat, nb: nat): (keys: seq<SortKey>)
      requires Valid() && qpos < |raw|
      ensures |keys| == nb
    {
      seq(nb, b requires 0 <= b < nb =>
        if b < Complete(qpos) then
          BlockInside(qpos, b, |raw|);
          Fin(-score(q, Block(raw, b), b))
        else Last)
    }

    /** Block `b` is the `ratio` keys from `b * ratio` on. */
    lemma BlockIsItsKeys(raw: seq<IndexKey>, b: nat)
      requires Mul(b + 1, ratio) <= |raw|
      ensures Mul(b, ratio) + ratio <= |raw| && Block(raw, b) == raw[Mul(b, ratio)..Mul(b, ratio) + ratio]
    {
      assert Mul(b + 1, ratio) == Mul(b, ratio) + ratio;
    }

    lemma BlockInside(qpos: nat, b: nat, length: nat)
      requires Valid() && b < Complete(qpos) && qpos < length
      ensures Mul(b + 1, ratio) <= length
    {
      SlotsMonotone(b + 1, Complete(qpos), ratio);
    }

    /** The blocks kept: the first `topk` of the argsort that are visible. */
    function Kept(q: IndexQuery, raw: seq<IndexKey>, qpos: nat, nb: nat): (kept: set<nat>)
      requires Valid() && qpos < |raw|
    {
      KeptBy(ArgSort(SortKeys(q, raw, qpos, nb)), qpos)
    }

    /** The same for any order of the blocks. */
    function KeptBy(order: seq<nat>, qpos: nat): set<nat>
      requires Valid()
    {
      set j | 0 <= j < |order| && j < topk && order[j] < Complete(qpos) :: order[j]
    }

    /** One entry of the mask over all the keys there are. */
    predicate Masked(q: IndexQuery, raw: seq<IndexKey>, qpos: nat, t: nat)
      requires Valid() && qpos < |raw| && t < |raw| && Quot(|raw|, ratio) > 0
    {
      var nb := Quot(|raw|, ratio);
      var limit := Mul(Complete(qpos), ratio);
      var block := if Quot(t, ratio) < nb - 1 then Quot(t, ratio) else nb - 1;
      (block in Kept(q, raw, qpos, nb) && t < limit) || limit <= t <= qpos
    }

    /** Whether a query of a call over `raw` attends to position t: dense causal attention
        while every complete block would be kept anyway, else the mask. */
    predicate Attends(q: IndexQuery, raw: seq<IndexKey>, qpos: nat, t: nat)
      requires Valid() && qpos < |raw| && t < |raw|
    {
      if Quot(|raw|, ratio) <= topk then t <= qpos else Masked(q, raw, qpos, t)
    }

    /******* What the mask is *******/

    /** The blocks kept, seen from the query alone: the best of the complete blocks. */
    function Best(q: IndexQuery, raw: seq<IndexKey>, qpos: nat): (best: seq<nat>)
      requires Valid() && qpos < |raw|
      ensures |best| == KeptCount(qpos)
    {
      ArgSort(SortKeys(q, raw, qpos, Complete(qpos)))[..KeptCount(qpos)]
    }

    function KeptCount(qpos: nat): nat
      requires Valid()
    {
      if Complete(qpos) <= topk then Complete(qpos) else topk
    }

    lemma KeysAgree(q: IndexQuery, raw: seq<IndexKey>, qpos: nat, nb: nat)
      requires Valid() && qpos < |raw| && Complete(qpos) <= nb
      ensures var order, few := ArgSort(SortKeys(q, raw, qpos, nb)), ArgSort(SortKeys(q, raw, qpos, Complete(qpos)));
        order[..Complete(qpos)] == few && forall j :: Complete(qpos) <= j < nb ==> order[j] == j
    {
      var keys, few := SortKeys(q, raw, qpos, nb), SortKeys(q, raw, qpos, Complete(qpos));
      assert keys[..Complete(qpos)] == few;
      SortWithLastKeys(keys, few);
    }

    /** Blocks that are not visible yet never displace a visible one. */
    lemma KeptIsBest(q: IndexQuery, raw: seq<IndexKey>, qpos: nat, nb: nat, b: nat)
      requires Valid() && qpos < |raw| && Complete(qpos) <= nb
      ensures b in Kept(q, raw, qpos, nb) <==> b in Best(q, raw, qpos)
    {
      var nc := Complete(qpos);
      var order, few := ArgSort(SortKeys(q, raw, qpos, nb)), ArgSort(SortKeys(q, raw, qpos, nc));
      KeysAgree(q, raw, qpos, nb);
      if b in Best(q, raw, qpos) {
        var j :| 0 <= j < KeptCount(qpos) && few[..KeptCount(qpos)][j] == b;
        assert order[j] == order[..nc][j] == b;
        assert few[j] < nc;
      }
      if b in Kept(q, raw, qpos, nb) {
        var j :| 0 <= j < |order| && j < topk && order[j] < nc && order[j] == b;
        assert j < nc && order[..nc][j] == b;
        assert few[..KeptCount(qpos)][j] == b;
      }
    }

    /** No complete block that is left out scores higher than one that is kept. */
    lemma KeptScoreHighest(q: IndexQuery, raw: seq<IndexKey>, qpos: nat, b: nat, c: nat)
      requires Valid() && qpos < |raw| && b in Best(q, raw, qpos) && c < Complete(qpos) && c !in Best(q, raw, qpos)
      ensures b < Complete(qpos) && Mul(b, ratio) + ratio <= |raw| && Mul(c, ratio) + ratio <= |raw|
      ensures score(q, raw[Mul(b, ratio)..Mul(b, ratio) + ratio], b) >= score(q, raw[Mul(c, ratio)..Mul(c, ratio) + ratio], c)
    {
      var keys := SortKeys(q, raw, qpos, Complete(qpos));
      var order := ArgSort(keys);
      ArgSortSorts(keys);
      assert c in order;
      var i :| 0 <= i < KeptCount(qpos) && order[..KeptCount(qpos)][i] == b;
      var j :| 0 <= j < |order| && order[j] == c;
      assert Before(keys, order[i], order[j]);
      BlockInside(qpos, b, |raw|);
      BlockInside(qpos, c, |raw|);
      BlockIsItsKeys(raw, b);
      BlockIsItsKeys(raw, c);
    }

    /******* What does not depend on the sort being stable *******/

    function ScoreOf(q: IndexQuery, raw: seq<IndexKey>, qpos: nat, b: nat): int
      requires Valid() && qpos < |raw| && b < Complete(qpos)
    {
      BlockInside(qpos, b, |raw|);
      score(q, raw[Mul(b, ratio)..Mul(b, ratio) + ratio], b)
    }

    /** A block's score depends on its own `ratio` keys and nothing else in the stream. */
    lemma ScoreIsOfOwnKeys(q: IndexQuery, raw: seq<IndexKey>, qpos: nat, nb: nat, other: seq<IndexKey>, qpos': nat, nb': nat, b: nat)
      requires Valid() && qpos < |raw| && qpos' < |other| && b < Complete(qpos) <= nb && b < Complete(qpos') <= nb'
      requires forall i :: Mul(b, ratio) <= i < Mul(b, ratio) + ratio && i < |raw| && i < |other| ==> raw[i] == other[i]
      ensures SortKeys(q, raw, qpos, nb)[b] == SortKeys(q, other, qpos', nb')[b]
    {
      BlockInside(qpos, b, |raw|);
      BlockInside(qpos', b, |other|);
      BlockIsItsKeys(raw, b);
      BlockIsItsKeys(other, b);
      assert Block(raw, b) == Block(other, b);
    }

    /** No complete block that is left out scores as high as one that is kept. */
    ghost predicate NoTie(q: IndexQuery, raw: seq<IndexKey>, qpos: nat)
      requires Valid() && qpos < |raw|
    {
      forall b, c :: b in Best(q, raw, qpos) && b < Complete(qpos) && 0 <= c < Complete(qpos) && c !in Best(q, raw, qpos) ==>
        ScoreOf(q, raw, qpos, b) > ScoreOf(q, raw, qpos, c)
    }

    /** Every sort puts the visible blocks first. */
    lemma VisibleFirst(q: IndexQuery, raw: seq<IndexKey>, qpos: nat, nb: nat, order: seq<nat>)
      requires Valid() && qpos < |raw| && Complete(qpos) <= nb && SortsBy(SortKeys(q, raw, qpos, nb), order)
      ensures forall x: nat :: x in Front(order, Complete(qpos)) <==> x < Complete(qpos)
    {
      var nc, keys := Complete(qpos), SortKeys(q, raw, qpos, nb);
      var stable := ArgSort(keys);
      ArgSortSortsBy(keys);
      KeysAgree(q, raw, qpos, nb);
      var few := SortKeys(q, raw, qpos, nc);
      ArgSortSorts(few);
      assert forall j :: 0 <= j < nc ==> stable[j] == ArgSort(few)[j];
      FrontsAgree(keys, stable, nc);
      forall x: nat
        ensures x in Front(stable, nc) <==> x < nc
      {
        assert x < nc ==> x in ArgSort(few);
      }
    }

    lemma KeptByIsFront(q: IndexQuery, raw: seq<IndexKey>, qpos: nat, nb: nat, order: seq<nat>)
      requires Valid() && qpos < |raw| && Complete(qpos) <= nb && SortsBy(SortKeys(q, raw, qpos, nb), order)
      ensures KeptBy(order, qpos) == Front(order, KeptCount(qpos))
    {
      VisibleFirst(q, raw, qpos, nb, order);
      forall j | 0 <= j < |order|
        ensures order[j] < Complete(qpos) <==> j < Complete(qpos)
      {
        assert j < Complete(qpos) ==> order[j] in Front(order, Complete(qpos));
        if order[j] < Complete(qpos) {
          assert order[j] in Front(order, Complete(qpos));
          var i :| 0 <= i < Complete(qpos) && order[i] == order[j];
          assert i == j;
        }
      }
    }

    /** The stable order starts with the complete blocks, the best of them first. */
    lemma StableFront(q: IndexQuery, raw: seq<IndexKey>, qpos: nat, nb: nat, order: seq<nat>)
      requires Valid() && qpos < |raw| && Complete(qpos) <= nb && order == ArgSort(SortKeys(q, raw, qpos, nb))
      ensures forall j :: 0 <= j < Complete(qpos) ==> order[j] < Complete(qpos)
      ensures forall j :: Complete(qpos) <= j < nb ==> order[j] == j
      ensures forall j :: 0 <= j < KeptCount(qpos) ==> Best(q, raw, qpos)[j] == order[j]
      ensures forall c: nat :: c < Complete(qpos) && c !in Best(q, raw, qpos) ==> exists j :: KeptCount(qpos) <= j < Complete(qpos) && order[j] == c
      ensures forall j :: KeptCount(qpos) <= j < Complete(qpos) ==> order[j] !in Best(q, raw, qpos)
    {
      var few := ArgSort(SortKeys(q, raw, qpos, Complete(qpos)));
      var k, best := KeptCount(qpos), Best(q, raw, qpos);
      KeysAgree(q, raw, qpos, nb);
      ArgSortSorts(SortKeys(q, raw, qpos, Complete(qpos)));
      forall j | 0 <= j < Complete(qpos)
        ensures order[j] == few[j] && few[j] < Complete(qpos)
      {
        assert order[..Complete(qpos)][j] == few[j];
      }
      assert forall j :: 0 <= j < k ==> few[j] == best[j] && few[j] in best;
      forall c: nat | c < Complete(qpos) && c !in best
        ensures exists j :: k <= j < Complete(qpos) && order[j] == c
      {
        assert c in few;
        var j :| 0 <= j < |few| && few[j] == c;
        assert order[j] == c;
      }
    }

    /** A tie across the boundary shows at the boundary. */
    lemma TieAtBoundary(q: IndexQuery, raw: seq<IndexKey>, qpos: nat, nb: nat, order: seq<nat>, b: nat, c: nat)
      requires Valid() && qpos < |raw| && Complete(qpos) <= nb && order == ArgSort(SortKeys(q, raw, qpos, nb))
      requires b in Best(q, raw, qpos) && b < Complete(qpos) && c < Complete(qpos) && c !in Best(q, raw, qpos)
      requires ScoreOf(q, raw, qpos, b) <= ScoreOf(q, raw, qpos, c)
      ensures !Separated(SortKeys(q, raw, qpos, nb), order, KeptCount(qpos))
    {
      var keys, k := SortKeys(q, raw, qpos, nb), KeptCount(qpos);
      StableFront(q, raw, qpos, nb, order);
      ArgSortSortsBy(keys);
      var i :| 0 <= i < k && Best(q, raw, qpos)[i] == b;
      var j :| k <= j < Complete(qpos) && order[j] == c;
      KeyIsScore(q, raw, qpos, nb, b);
      KeyIsScore(q, raw, qpos, nb, c);
      assert AtMost(keys, order[j], order[i]);
      TieShows(keys, order, k, i, j);
    }

    lemma KeyIsScore(q: IndexQuery, raw: seq<IndexKey>, qpos: nat, nb: nat, b: nat)
      requires Valid() && qpos < |raw| && b < Complete(qpos) <= nb
      ensures SortKeys(q, raw, qpos, nb)[b] == Fin(-ScoreOf(q, raw, qpos, b))
    {
      BlockInside(qpos, b, |raw|);
      BlockIsItsKeys(raw, b);
    }

    /** The boundary lies between different scores exactly when there is no tie across it. */
    lemma SeparatedIsNoTie(q: IndexQuery, raw: seq<IndexKey>, qpos: nat, nb: nat)
      requires Valid() && qpos < |raw| && Complete(qpos) <= nb
      ensures var keys := SortKeys(q, raw, qpos, nb);
        Separated(keys, ArgSort(keys), KeptCount(qpos)) <==> NoTie(q, raw, qpos)
    {
      var keys, k := SortKeys(q, raw, qpos, nb), KeptCount(qpos);
      var order := ArgSort(keys);
      if !NoTie(q, raw, qpos) {
        var b, c :| b in Best(q, raw, qpos) && b < Complete(qpos) && 0 <= c < Complete(qpos) && c !in Best(q, raw, qpos)
          && ScoreOf(q, raw, qpos, b) <= ScoreOf(q, raw, qpos, c);
        TieAtBoundary(q, raw, qpos, nb, order, b, c);
      }
      if !Separated(keys, order, k) {
        TieAcross(q, raw, qpos, nb, order);
      }
    }

    /** Equal keys at the boundary are a tie across it; incomplete blocks tie with none. */
    lemma TieAcross(q: IndexQuery, raw: seq<IndexKey>, qpos: nat, nb: nat, order: seq<nat>)
      requires Valid() && qpos < |raw| && Complete(qpos) <= nb && order == ArgSort(SortKeys(q, raw, qpos, nb))
      requires !Separated(SortKeys(q, raw, qpos, nb), order, KeptCount(qpos))
      ensures !NoTie(q, raw, qpos)
    {
      var k := KeptCount(qpos);
      var b, c := order[k - 1], order[k];
      StableFront(q, raw, qpos, nb, order);
      assert b == Best(q, raw, qpos)[k - 1];
      if c < Complete(qpos) {
        KeyIsScore(q, raw, qpos, nb, b);
        KeyIsScore(q, raw, qpos, nb, c);
      }
      assert ScoreOf(q, raw, qpos, b) <= ScoreOf(q, raw, qpos, c);
    }

    /** Any sort, stable or not, keeps the same blocks, if and only if no kept block ties with one
        that is left out. */
    lemma AnySortKeepsBest(q: IndexQuery, raw: seq<IndexKey>, qpos: nat, nb: nat)
      requires Valid() && qpos < |raw| && Complete(qpos) <= nb
      ensures (forall order :: SortsBy(SortKeys(q, raw, qpos, nb), order) ==> KeptBy(order, qpos) == Kept(q, raw, qpos, nb))
         <==> NoTie(q, raw, qpos)
    {
      var keys, k := SortKeys(q, raw, qpos, nb), KeptCount(qpos);
      var stable := ArgSort(keys);
      ArgSortSortsBy(keys);
      forall order | SortsBy(keys, order)
        ensures KeptBy(order, qpos) == Front(order, k)
      {
        KeptByIsFront(q, raw, qpos, nb, order);
      }
      FrontsAgree(keys, stable, k);
      SeparatedIsNoTie(q, raw, qpos, nb);
    }

    /** Whether a query attends to position t, told from the stream up to the query: its
        block is among the best, or it is in the incomplete tail. */
    predicate Selected(q: IndexQuery, prefix: seq<IndexKey>, t: nat)
      requires Valid() && prefix != []
    {
      var qpos := |prefix| - 1;
      Quot(t, ratio) in Best(q, prefix, qpos) || Mul(Complete(qpos), ratio) <= t <= qpos
    }

    lemma BestIsLocal(q: IndexQuery, raw: seq<IndexKey>, qpos: nat)
      requires Valid() && qpos < |raw|
      ensures Best(q, raw, qpos) == Best(q, raw[..qpos + 1], qpos)
    {
      var prefix, nc := raw[..qpos + 1], Complete(qpos);
      forall b | 0 <= b < nc
        ensures SortKeys(q, raw, qpos, nc)[b] == SortKeys(q, prefix, qpos, nc)[b]
      {
        BlockInside(qpos, b, |raw|);
        BlockInside(qpos, b, |prefix|);
        assert Block(raw, b) == Block(prefix, b);
      }
      assert SortKeys(q, raw, qpos, nc) == SortKeys(q, prefix, qpos, nc);
    }

    lemma BestAreComplete(q: IndexQuery, raw: seq<IndexKey>, qpos: nat)
      requires Valid() && qpos < |raw|
      ensures Distinct(Best(q, raw, qpos)) && forall b :: b in Best(q, raw, qpos) ==> b < Complete(qpos)
      ensures Complete(qpos) <= topk ==> forall b: nat :: b in Best(q, raw, qpos) <==> b < Complete(qpos)
    {
      var keys := SortKeys(q, raw, qpos, Complete(qpos));
      ArgSortSorts(keys);
      FrontOfListing(ArgSort(keys), Complete(qpos), KeptCount(qpos));
      assert Complete(qpos) <= topk ==> Best(q, raw, qpos) == ArgSort(keys);
    }

    lemma CompleteIsMonotone(qpos: nat, length: nat)
      requires Valid() && qpos < length
      ensures Complete(qpos) <= Quot(length, ratio)
    {
      QuotRemDivide(length, ratio);
      if Quot(length, ratio) < Complete(qpos) {
        SlotsDisjoint(Quot(length, ratio), Complete(qpos), ratio);
      }
    }

    lemma BlockOrTail(qpos: nat, t: nat)
      requires Valid()
      ensures Quot(t, ratio) < Complete(qpos) <==> t < Mul(Complete(qpos), ratio)
    {
      QuotRemDivide(t, ratio);
      if Quot(t, ratio) < Complete(qpos) {
        SlotsMonotone(Quot(t, ratio) + 1, Complete(qpos), ratio);
      } else {
        SlotsMonotone(Complete(qpos), Quot(t, ratio), ratio);
      }
    }

    /** A row is the selection of the stream up to the query: keys that came later, and
        with them the way the stream was cut into calls, do not matter. */
    lemma RowIsSelection(q: IndexQuery, raw: seq<IndexKey>, qpos: nat, t: nat)
      requires Valid() && qpos < |raw| && t < |raw|
      ensures Attends(q, raw, qpos, t) <==> Selected(q, raw[..qpos + 1], t)
    {
      BestIsLocal(q, raw, qpos);
      CompleteIsMonotone(qpos, |raw|);
      BestAreComplete(q, raw, qpos);
      BlockOrTail(qpos, t);
      if Quot(|raw|, ratio) > topk {
        KeptIsBest(q, raw, qpos, Quot(|raw|, ratio), Quot(t, ratio));
      }
    }

    /** Nothing in the future is attended to, and the incomplete tail always is. */
    lemma RowIsCausal(q: IndexQuery, raw: seq<IndexKey>, qpos: nat, t: nat)
      requires Valid() && qpos < |raw| && t < |raw|
      ensures Attends(q, raw, qpos, t) ==> t <= qpos
      ensures Mul(Complete(qpos), ratio) <= t <= qpos ==> Attends(q, raw, qpos, t)
      ensures Complete(qpos) <= topk && t <= qpos ==> Attends(q, raw, qpos, t)
    {
      RowIsSelection(q, raw, qpos, t);
      BestAreComplete(q, raw[..qpos + 1], qpos);
      BlockOrTail(qpos, t);
    }

    /******* How many positions a row attends to *******/

    /** The positions of the blocks `blocks[..n]`. */
    function Tokens(blocks: seq<nat>, n: nat): (ts: seq<nat>)
      requires Valid() && n <= |blocks|
      ensures |ts| == Mul(n, ratio)
    {
      if n == 0 then [] else Tokens(blocks, n - 1) + Range(Mul(blocks[n - 1], ratio), ratio)
    }

    lemma InBlock(b: nat, t: nat)
      requires Valid()
      ensures t in Range(Mul(b, ratio), ratio) <==> Quot(t, ratio) == b
    {
      InRange(Mul(b, ratio), ratio, t);
      QuotRemDivide(t, ratio);
      var c := Quot(t, ratio);
      if c < b {
        SlotsDisjoint(c, b, ratio);
      } else if b < c {
        SlotsDisjoint(b, c, ratio);
      }
    }

    lemma {:induction false} InTokens(blocks: seq<nat>, n: nat, t: nat)
      requires Valid() && n <= |blocks|
      ensures t in Tokens(blocks, n) <==> Quot(t, ratio) in blocks[..n]
    {
      if n > 0 {
        InTokens(blocks, n - 1, t);
        InBlock(blocks[n - 1], t);
        TakeSnoc(blocks, n - 1);
      }
    }

    lemma {:induction false} TokensDistinct(blocks: seq<nat>, n: nat)
      requires Valid() && Distinct(blocks) && n <= |blocks|
      ensures Distinct(Tokens(blocks, n))
    {
      if n > 0 {
        TokensDistinct(blocks, n - 1);
        var b := blocks[n - 1];
        assert b !in blocks[..n - 1];
        forall t | t in Range(Mul(b, ratio), ratio)
          ensures t !in Tokens(blocks, n - 1)
        {
          InBlock(b, t);
          InTokens(blocks, n - 1, t);
        }
        DistinctConcat(Tokens(blocks, n - 1), Range(Mul(b, ratio), ratio));
      }
    }

    /** The attended positions, listed: the kept blocks in full, then the tail. */
    function RowList(q: IndexQuery, prefix: seq<IndexKey>): (row: seq<nat>)
      requires Valid() && prefix != []
      ensures var qpos := |prefix| - 1;
        |row| == Mul(KeptCount(qpos), ratio) + (qpos + 1 - Mul(Complete(qpos), ratio))
    {
      var qpos := |prefix| - 1;
      var best := Best(q, prefix, qpos);
      var limit := Mul(Complete(qpos), ratio);
      Tokens(best, |best|) + Range(limit, qpos + 1 - limit)
    }

    /** A row attends to the listed positions, each listed once. */
    lemma RowIsListed(q: IndexQuery, raw: seq<IndexKey>, qpos: nat, t: nat)
      requires Valid() && qpos < |raw| && t < |raw|
      ensures Attends(q, raw, qpos, t) <==> t in RowList(q, raw[..qpos + 1])
    {
      var prefix := raw[..qpos + 1];
      var best := Best(q, prefix, qpos);
      RowIsSelection(q, raw, qpos, t);
      InTokens(best, |best|, t);
      assert best[..|best|] == best;
      InRange(Mul(Complete(qpos), ratio), qpos + 1 - Mul(Complete(qpos), ratio), t);
    }

    lemma RowListDistinct(q: IndexQuery, prefix: seq<IndexKey>)
      requires Valid() && prefix != []
      ensures Distinct(RowList(q, prefix))
    {
      var qpos := |prefix| - 1;
      var best, limit := Best(q, prefix, qpos), Mul(Complete(qpos), ratio);
      BestAreComplete(q, prefix, qpos);
      TokensDistinct(best, |best|);
      forall t | t in Range(limit, qpos + 1 - limit)
        ensures t !in Tokens(best, |best|)
      {
        InRange(limit, qpos + 1 - limit, t);
        InTokens(best, |best|, t);
        assert best[..|best|] == best;
        BlockOrTail(qpos, t);
      }
      DistinctConcat(Tokens(best, |best|), Range(limit, qpos + 1 - limit));
    }

    /** A row never holds more than the budget and one incomplete block, and holds every
        position up to the query exactly when the complete blocks fit the budget: leaving
        the mask out is sound then, and only then. */
    lemma RowSize(q: IndexQuery, prefix: seq<IndexKey>)
      requires Valid() && prefix != []
      ensures |RowList(q, prefix)| <= Mul(topk, ratio) + ratio - 1
      ensures |RowList(q, prefix)| <= |prefix|
      ensures |RowList(q, prefix)| == |prefix| <==> Complete(|prefix| - 1) <= topk
    {
      var qpos := |prefix| - 1;
      SlotsMonotone(KeptCount(qpos), topk, ratio);
      if topk < Complete(qpos) {
        SlotsDisjoint(topk, Complete(qpos), ratio);
      }
    }
  }

  /** The masks of a call whose chunk ends the keys `raw`, one row per query. */
  function CallMask(indexer: Indexer, queries: seq<IndexQuery>, raw: seq<IndexKey>): (mask: seq<seq<bool>>)
    requires indexer.Valid() && |queries| <= |raw|
    ensures |mask| == |queries|
    ensures forall l :: 0 <= l < |queries| ==> |mask[l]| == |raw|
  {
    var offset := |raw| - |queries|;
    seq(|queries|, l requires 0 <= l < |queries| =>
      seq(|raw|, t requires 0 <= t < |raw| => indexer.Attends(queries[l], raw, offset + l, t)))
  }

  lemma CallEntry(indexer: Indexer, queries: seq<IndexQuery>, raw: seq<IndexKey>, l: nat, t: nat)
    requires indexer.Valid() && |queries| <= |raw| && l < |queries| && t < |raw|
    ensures var qpos := |raw| - |queries| + l;
      CallMask(indexer, queries, raw)[l][t] <==> indexer.Selected(queries[l], raw[..qpos + 1], t)
    ensures CallMask(indexer, queries, raw)[l][t] ==> t <= |raw| - |queries| + l
  {
    var qpos := |raw| - |queries| + l;
    indexer.RowIsSelection(queries[l], raw, qpos, t);
    indexer.RowIsCausal(queries[l], raw, qpos, t);
  }

  /** A query attends to the same positions in one call over the whole stream as in a call
      that ends at its own chunk; the longer row only has later positions, all masked. */
  lemma ChunkingIsInvisible(indexer: Indexer, queries: seq<IndexQuery>, more: seq<IndexQuery>, raw: seq<IndexKey>,
                            l: nat, t: nat)
    requires indexer.Valid() && |queries| + |more| <= |raw| && l < |queries| && t < |raw|
    ensures var early := raw[..|raw| - |more|];
      CallMask(indexer, queries + more, raw)[l][t] <==> t < |early| && CallMask(indexer, queries, early)[l][t]
  {
    var early := raw[..|raw| - |more|];
    var qpos := |early| - |queries| + l;
    assert early[..qpos + 1] == raw[..qpos + 1];
    CallEntry(indexer, queries + more, raw, l, t);
    if t < |early| {
      CallEntry(indexer, queries, early, l, t);
    }
  }

  /** The keys up to the query `l` of a call whose chunk ends the keys `raw`. */
  function UpToQuery(queries: seq<IndexQuery>, raw: seq<IndexKey>, l: nat): (prefix: seq<IndexKey>)
    requires l < |queries| <= |raw|
    ensures |prefix| == |raw| - |queries| + l + 1
  {
    raw[..|raw| - |queries| + l + 1]
  }

  /** The mask holds, for every query and key, whether the query selects it from what came before. */
  ghost predicate ShowsSelection(indexer: Indexer, queries: seq<IndexQuery>, raw: seq<IndexKey>, mask: seq<seq<bool>>) {
    && indexer.Valid() && |mask| == |queries| <= |raw| && (forall l :: 0 <= l < |mask| ==> |mask[l]| == |raw|)
    && forall l, t :: 0 <= l < |mask| && 0 <= t < |raw| ==>
         (mask[l][t] <==> indexer.Selected(queries[l], UpToQuery(queries, raw, l), t))
  }

  /** The query selects everything up to itself. */
  ghost predicate SelectsAll(indexer: Indexer, q: IndexQuery, prefix: seq<IndexKey>) {
    indexer.Valid() && prefix != [] && forall t: nat :: indexer.Selected(q, prefix, t) <==> t < |prefix|
  }

  /** Selection is the causal row if and only if the complete blocks fit the budget. */
  lemma SelectsAllWhenFits(indexer: Indexer, q: IndexQuery, prefix: seq<IndexKey>)
    requires indexer.Valid() && prefix != []
    ensures SelectsAll(indexer, q, prefix) <==> indexer.Complete(|prefix| - 1) <= indexer.topk
  {
    var qpos := |prefix| - 1;
    indexer.BestAreComplete(q, prefix, qpos);
    if indexer.Complete(qpos) <= indexer.topk {
      forall t: nat
        ensures indexer.Selected(q, prefix, t) <==> t < |prefix|
      {
        indexer.BlockOrTail(qpos, t);
      }
    } else {
      var b := Missed(indexer.Best(q, prefix, qpos), indexer.Complete(qpos));
      BlockStart(indexer, b, qpos);
      assert !indexer.Selected(q, prefix, Mul(b, indexer.ratio));
    }
  }

  lemma BlockStart(indexer: Indexer, b: nat, qpos: nat)
    requires indexer.Valid() && b < indexer.Complete(qpos)
    ensures Quot(Mul(b, indexer.ratio), indexer.ratio) == b && Mul(b, indexer.ratio) < Mul(indexer.Complete(qpos), indexer.ratio)
  {
    SlotsDisjoint(b, indexer.Complete(qpos), indexer.ratio);
    InRange(Mul(b, indexer.ratio), indexer.ratio, Mul(b, indexer.ratio));
    indexer.InBlock(b, Mul(b, indexer.ratio));
  }

  /** Fewer than `n` entries leave out a number below `n`. */
  lemma {:induction false} Missed(s: seq<nat>, n: nat) returns (b: nat)
    requires |s| < n
    ensures b < n && b !in s
  {
    b := n - 1;
    if b in s {
      var i :| 0 <= i < |s| && s[i] == n - 1;
      var rest := s[..i] + s[i + 1..];
      assert s == s[..i] + [s[i]] + s[i + 1..];
      b := Missed(rest, n - 1);
    }
  }

  lemma CallShowsSelection(indexer: Indexer, queries: seq<IndexQuery>, raw: seq<IndexKey>)
    requires indexer.Valid() && |queries| <= |raw|
    ensures ShowsSelection(indexer, queries, raw, CallMask(indexer, queries, raw))
  {
    forall l, t | 0 <= l < |queries| && 0 <= t < |raw|
      ensures CallMask(indexer, queries, raw)[l][t] <==> indexer.Selected(queries[l], UpToQuery(queries, raw, l), t)
    {
      CallEntry(indexer, queries, raw, l, t);
    }
  }

  /** While the complete blocks of all keys fit the budget every row is causal; when they do not,
      the last one is not. */
  lemma AllCausalWhenFits(indexer: Indexer, queries: seq<IndexQuery>, raw: seq<IndexKey>)
    requires indexer.Valid() && 0 < |queries| <= |raw|
    ensures (forall l :: 0 <= l < |queries| ==> SelectsAll(indexer, queries[l], UpToQuery(queries, raw, l)))
       <==> Quot(|raw|, indexer.ratio) <= indexer.topk
  {
    var last := |queries| - 1;
    assert UpToQuery(queries, raw, last) == raw;
    SelectsAllWhenFits(indexer, queries[last], raw);
    if Quot(|raw|, indexer.ratio) <= indexer.topk {
      forall l | 0 <= l < |queries|
        ensures SelectsAll(indexer, queries[l], UpToQuery(queries, raw, l))
      {
        CausalWhenFits(indexer, queries, raw, l);
      }
    } else {
      assert !SelectsAll(indexer, queries[last], UpToQuery(queries, raw, last));
    }
  }

  lemma CausalWhenFits(indexer: Indexer, queries: seq<IndexQuery>, raw: seq<IndexKey>, l: nat)
    requires indexer.Valid() && l < |queries| <= |raw| && Quot(|raw|, indexer.ratio) <= indexer.topk
    ensures SelectsAll(indexer, queries[l], UpToQuery(queries, raw, l))
  {
    var prefix := UpToQuery(queries, raw, l);
    indexer.CompleteIsMonotone(|prefix| - 1, |raw|);
    assert indexer.Complete(|prefix| - 1) <= indexer.topk;
    SelectsAllWhenFits(indexer, queries[l], prefix);
  }

  /** The indexer with the keys it has cached. */
  class QSAIndexer {
    const indexer: Indexer
    var keys: seq<IndexKey>

    constructor (indexer: Indexer)
      ensures this.indexer == indexer && keys == []
    {
      this.indexer := indexer;
      keys := [];
    }

    /** One call over a chunk. Each row of the mask is the selection of its own query from the keys
        up to it; no mask is returned exactly when all those rows are the causal ones. */
    method Call(queries: seq<IndexQuery>, chunk: seq<IndexKey>) returns (mask: Option<seq<seq<bool>>>)
      requires indexer.Valid() && |queries| == |chunk|
      modifies this
      ensures keys == old(keys) + chunk
      ensures mask.Some? ==> ShowsSelection(indexer, queries, keys, mask.value)
      ensures queries != [] ==>
        (mask.None? <==> forall l :: 0 <= l < |queries| ==> SelectsAll(indexer, queries[l], UpToQuery(queries, keys, l)))
    {
      keys := keys + chunk;
      CallShowsSelection(indexer, queries, keys);
      if queries != [] {
        AllCausalWhenFits(indexer, queries, keys);
      }
      if Quot(|keys|, indexer.ratio) <= indexer.topk {
        return None;
      }
      return Some(CallMask(indexer, queries, keys));
    }
  }
}
