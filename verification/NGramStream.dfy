/**
 State carried between chunks of a token stream: the n-gram context slot and the
 dilated convolution state. Both are windows over the stream, so how the stream is
 cut into chunks does not show.
 */
module NGramStream {
  import opened Collections
  import opened NGramTables

  /******* Windows over a stream *******/

  /** `s[-n:]`, which for n = 0 is the whole sequence. */
  function LastItems<T>(s: seq<T>, n: nat): (r: seq<T>)
    ensures 0 < n <= |s| ==> r == s[|s| - n..]
  {
    if n == 0 || n > |s| then s else s[|s| - n..]
  }

  /** One result per position that has `n` items before it. */
  function Windows<T, R>(f: seq<T> -> R, n: nat, full: seq<T>): (out: seq<R>)
    requires n <= |full|
    ensures |out| == |full| - n
    ensures forall j :: 0 <= j < |out| ==> out[j] == f(full[j..j + n + 1])
  {
    seq(|full| - n, j requires 0 <= j < |full| - n => f(full[j..j + n + 1]))
  }

  /** Feed one chunk after a state of `n` items. */
  function FeedChunk<T, R>(f: seq<T> -> R, n: nat, state: seq<T>, x: seq<T>): (r: (seq<R>, seq<T>))
    requires n >= 1 && |state| == n
    ensures |r.0| == |x| && |r.1| == n
  {
    (Windows(f, n, state + x), LastItems(state + x, n))
  }

  function FeedAll<T, R>(f: seq<T> -> R, n: nat, state: seq<T>, chunks: seq<seq<T>>): (r: (seq<R>, seq<T>))
    requires n >= 1 && |state| == n
    decreases |chunks|
  {
    if chunks == [] then ([], state)
    else
      var (out, state') := FeedChunk(f, n, state, chunks[0]);
      var (outs, state'') := FeedAll(f, n, state', chunks[1..]);
      (out + outs, state'')
  }

  function Flatten<T>(chunks: seq<seq<T>>): seq<T> {
    if chunks == [] then [] else chunks[0] + Flatten(chunks[1..])
  }

  lemma {:induction false} FlattenSnoc<T>(chunks: seq<seq<T>>, i: nat)
    requires i < |chunks|
    ensures Flatten(chunks[..i + 1]) == Flatten(chunks[..i]) + chunks[i]
  {
    if i > 0 {
      FlattenSnoc(chunks[1..], i - 1);
      assert chunks[1..][..i] == chunks[..i + 1][1..] && chunks[1..][..i - 1] == chunks[..i][1..];
    }
  }

  /** Two chunks in a row are one chunk. */
  lemma TwoChunksAreOne<T, R>(f: seq<T> -> R, n: nat, state: seq<T>, a: seq<T>, b: seq<T>)
    requires n >= 1 && |state| == n
    ensures var (outA, stateA) := FeedChunk(f, n, state, a);
      var (outB, stateB) := FeedChunk(f, n, stateA, b);
      FeedChunk(f, n, state, a + b) == (outA + outB, stateB)
  {
    var (outA, stateA) := FeedChunk(f, n, state, a);
    var (outB, stateB) := FeedChunk(f, n, stateA, b);
    var full, s := state + (a + b), state + a;
    assert full == s + b;
    var whole := Windows(f, n, full);
    forall j | 0 <= j < |whole|
      ensures whole[j] == (outA + outB)[j]
    {
      if j < |a| {
        assert full[j..j + n + 1] == s[j..j + n + 1];
      } else {
        LaterWindow(s, b, n, j - |a|);
      }
    }
    assert whole == outA + outB;
    LastOfLast(s, b, n);
  }

  /** Past the last `n` items of `s`, windows only see those and what follows. */
  lemma LaterWindow<T>(s: seq<T>, b: seq<T>, n: nat, j: nat)
    requires 0 < n <= |s| && j < |b|
    ensures (s + b)[|s| - n + j..|s| + j + 1] == (LastItems(s, n) + b)[j..j + n + 1]
  {
    LastThen(s, b, n);
    assert (s + b)[|s| - n..][j..j + n + 1] == (s + b)[|s| - n + j..|s| + j + 1];
  }

  lemma LastThen<T>(s: seq<T>, b: seq<T>, n: nat)
    requires 0 < n <= |s|
    ensures LastItems(s, n) + b == (s + b)[|s| - n..]
  {
  }

  lemma LastOfLast<T>(s: seq<T>, b: seq<T>, n: nat)
    requires 0 < n <= |s|
    ensures LastItems(s + b, n) == LastItems(LastItems(s, n) + b, n)
  {
    LastThen(s, b, n);
    assert (s + b)[|s| - n..][|b|..] == (s + b)[|s| + |b| - n..];
  }

  /** Any cut of a stream gives the results and the state of the uncut stream. */
  lemma {:induction false} ChunkingIsInvisible<T, R>(f: seq<T> -> R, n: nat, state: seq<T>, chunks: seq<seq<T>>)
    requires n >= 1 && |state| == n
    ensures FeedAll(f, n, state, chunks) == FeedChunk(f, n, state, Flatten(chunks))
    decreases |chunks|
  {
    if chunks == [] {
      assert state + [] == state;
      assert FeedChunk(f, n, state, []).0 == [];
    } else {
      var (_, state') := FeedChunk(f, n, state, chunks[0]);
      ChunkingIsInvisible(f, n, state', chunks[1..]);
      TwoChunksAreOne(f, n, state, chunks[0], Flatten(chunks[1..]));
    }
  }

  lemma FeedOneMore<T, R>(f: seq<T> -> R, n: nat, start: seq<T>, chunks: seq<seq<T>>, i: nat, outs: seq<R>, state: seq<T>,
                          out: seq<R>, state': seq<T>)
    requires n >= 1 && |start| == |state| == n && i < |chunks|
    requires (outs, state) == FeedChunk(f, n, start, Flatten(chunks[..i])) && (out, state') == FeedChunk(f, n, state, chunks[i])
    ensures (outs + out, state') == FeedChunk(f, n, start, Flatten(chunks[..i + 1]))
  {
    TwoChunksAreOne(f, n, start, Flatten(chunks[..i]), chunks[i]);
    FlattenSnoc(chunks, i);
  }

  /******* The shift that does not cross an eos *******/

  function EosPositions(ids: seq<int>, eos: int): (p: seq<int>)
    ensures |p| == |ids|
    ensures forall i :: 0 <= i < |ids| ==> p[i] == if ids[i] == eos then i else -1
  {
    seq(|ids|, i requires 0 <= i < |ids| => if ids[i] == eos then i else -1)
  }

  /** Running maximum. */
  function CumMax(s: seq<int>): (r: seq<int>)
    ensures |r| == |s|
  {
    if s == [] then []
    else
      var n := |s| - 1;
      var r := CumMax(s[..n]);
      r + [if n > 0 && r[n - 1] > s[n] then r[n - 1] else s[n]]
  }

  /** `p` is the last eos at or before position i, or -1. */
  ghost predicate LastEos(ids: seq<int>, eos: int, i: int, p: int) {
    && -1 <= p <= i < |ids| && (p >= 0 ==> ids[p] == eos)
    && forall j :: p < j <= i ==> ids[j] != eos
  }

  lemma {:induction false} CumMaxFindsLastEos(ids: seq<int>, eos: int, i: nat)
    requires i < |ids|
    ensures LastEos(ids, eos, i, CumMax(EosPositions(ids, eos))[i])
    decreases |ids|
  {
    var n := |ids| - 1;
    var p := EosPositions(ids, eos);
    assert p[..n] == EosPositions(ids[..n], eos);
    if i < n {
      CumMaxFindsLastEos(ids[..n], eos, i);
      assert LastEos(ids[..n], eos, i, CumMax(p)[i]);
    } else if n > 0 {
      CumMaxFindsLastEos(ids[..n], eos, n - 1);
      assert LastEos(ids[..n], eos, n - 1, CumMax(p[..n])[n - 1]);
    }
  }

  /** Last eos strictly before each position. */
  function PrevEos(ids: seq<int>, eos: int): (prev: seq<int>)
    ensures |prev| == |ids| + 1
  {
    [-1] + CumMax(EosPositions(ids, eos))
  }

  function ShiftEntry(ids: seq<int>, eos: int, shift: nat, prevEos: int, i: nat): int
    requires i < |ids|
  {
    var posInSeg := i - (prevEos + 1);
    var src := i - shift;
    if posInSeg >= shift && src >= 0 then ids[src] else eos
  }

  /** The array program: positions, running maximum, gather, mask. */
  function ShiftRightIgnoreEos(ids: seq<int>, eos: int, shift: nat): (r: seq<int>)
    ensures |r| == |ids|
  {
    if shift == 0 then ids
    else
      var prev := PrevEos(ids, eos);
      seq(|ids|, i requires 0 <= i < |ids| => ShiftEntry(ids, eos, shift, prev[i], i))
  }

  /** The token `s` back, unless the stream begins or an eos lies in between. */
  function TokenBack(ids: seq<int>, eos: int, i: nat, s: nat): int
    requires i < |ids|
  {
    if s <= i && (forall j :: i - s <= j < i ==> ids[j] != eos) then ids[i - s] else eos
  }

  lemma TokenBackByLastEos(ids: seq<int>, eos: int, i: nat, s: nat, p: int)
    requires 0 < i < |ids| && s > 0 && LastEos(ids, eos, i - 1, p)
    ensures TokenBack(ids, eos, i, s) == if s <= i && p < i - s then ids[i - s] else eos
  {
    if s <= i && p >= i - s {
      assert ids[p] == eos;
    }
  }

  /** The running-maximum program computes the window definition at every position. */
  lemma ShiftIsTokenBack(ids: seq<int>, eos: int, s: nat, i: nat)
    requires i < |ids|
    ensures ShiftRightIgnoreEos(ids, eos, s)[i] == TokenBack(ids, eos, i, s)
  {
    if s > 0 {
      var prev := PrevEos(ids, eos)[i];
      assert ShiftRightIgnoreEos(ids, eos, s)[i] == ShiftEntry(ids, eos, s, prev, i);
      if i > 0 {
        CumMaxFindsLastEos(ids, eos, i - 1);
        TokenBackByLastEos(ids, eos, i, s, prev);
      }
    }
  }

  /** Only the last `n` tokens matter for shifts up to `n`. */
  lemma TokenBackIsLocal(ids: seq<int>, eos: int, i: nat, n: nat, s: nat)
    requires s <= n <= i < |ids|
    ensures TokenBack(ids, eos, i, s) == TokenBack(ids[i - n..i + 1], eos, n, s)
  {
    var w := ids[i - n..i + 1];
    assert forall j :: i - s <= j < i ==> ids[j] == w[j - (i - n)];
    assert forall j :: n - s <= j < n ==> w[j] == ids[j + (i - n)];
  }

  /******* n-gram ids *******/

  ghost predicate TokensBelow(vocab: nat, tokens: seq<int>) {
    forall i :: 0 <= i < |tokens| ==> 0 <= tokens[i] < vocab
  }

  lemma TokenBackBelow(vocab: nat, ids: seq<int>, eos: int, i: nat, s: nat)
    requires i < |ids| && TokensBelow(vocab, ids) && 0 <= eos < vocab
    ensures 0 <= TokenBack(ids, eos, i, s) < vocab
  {
  }

  lemma SliceBelow(vocab: nat, ids: seq<int>, i: nat, j: nat)
    requires i <= j <= |ids| && TokensBelow(vocab, ids)
    ensures TokensBelow(vocab, ids[i..j])
  {
  }

  /** The shifted tokens of one position. */
  function ShiftedAt(c: Config, history: seq<int>, eos: int, i: nat): (shifted: seq<int>)
    requires i < |history|
    ensures |shifted| == c.ngramSize
  {
    seq(c.ngramSize, s requires 0 <= s < c.ngramSize => ShiftRightIgnoreEos(history, eos, s)[i])
  }

  datatype Table = Table(c: Config, geo: Geometry, multipliers: seq<int>, eos: int) {
    predicate Valid() {
      && c.Valid() && |geo.sizes| == |geo.offsets| == c.Heads() && |multipliers| == c.ngramSize
      && forall h :: 0 <= h < c.Heads() ==> geo.sizes[h] > 0
    }

    /** The table the code builds for one PLE layer. */
    ghost predicate BuiltFor(vocab: nat, layer: nat, seed: int) {
      && Valid() && GeometryOf(c, layer, geo)
      && forall i :: 0 <= i < |multipliers| ==> multipliers[i] == LayerMultiplier(vocab, layer, seed, i)
    }

    function ContextLen(): nat
      requires Valid()
    {
      c.ngramSize - 1
    }

    function Padding(): (prev: seq<int>)
      requires Valid()
      ensures |prev| == ContextLen()
    {
      seq(ContextLen(), i => eos)
    }

    /** Table rows of every position of a history. */
    function RowsOf(history: seq<int>): (rows: seq<seq<int>>)
      requires Valid()
      ensures |rows| == |history|
    {
      seq(|history|, i requires 0 <= i < |history| =>
        HeadRows(c, geo, multipliers, ShiftedAt(c, history, eos, i)))
    }

    /** Table rows of a position from the window that ends there. */
    function RowOfWindow(window: seq<int>): seq<int> {
      if !Valid() || |window| != c.ngramSize then []
      else HeadRows(c, geo, multipliers, Shifts(window))
    }

    /** The tokens 0, 1, ... back from the end of a window. */
    function Shifts(window: seq<int>): (shifted: seq<int>)
      requires Valid() && |window| == c.ngramSize
      ensures |shifted| == c.ngramSize
      ensures forall s :: 0 <= s < c.ngramSize ==> shifted[s] == TokenBack(window, eos, ContextLen(), s)
    {
      seq(c.ngramSize, s requires 0 <= s < c.ngramSize => TokenBack(window, eos, ContextLen(), s))
    }

    /** The entry of head `h` is the hash of the window over unbounded integers, reduced to the
        head's size and moved to the head's own range. */
    ghost predicate HeadIsExact(shifted: seq<int>, row: seq<int>, h: nat)
      requires Valid() && |shifted| == c.ngramSize && |row| == c.Heads() && h < c.Heads()
      requires forall s :: 0 <= s < c.ngramSize ==> shifted[s] >= 0 && multipliers[s] >= 0
    {
      && (forall n :: 2 <= n <= c.ngramSize && HeadOfNgram(c, h, n) ==>
            row[h] == ExactMix(shifted, multipliers, n) % geo.sizes[h] + geo.offsets[h])
      && (exists n :: 2 <= n <= c.ngramSize && HeadOfNgram(c, h, n))
      && geo.offsets[h] <= row[h] < geo.offsets[h] + geo.sizes[h] && row[h] < geo.total
    }

    ghost predicate RowIsExact(window: seq<int>, row: seq<int>) {
      && Valid() && |window| == c.ngramSize && |row| == c.Heads()
      && (forall s :: 0 <= s < c.ngramSize ==> Shifts(window)[s] >= 0 && multipliers[s] >= 0)
      && forall h :: 0 <= h < c.Heads() ==> HeadIsExact(Shifts(window), row, h)
    }

    /** Each row given out is exact for the window that ends at its token. */
    ghost predicate RowsAreExact(history: seq<int>, rows: seq<seq<int>>) {
      && Valid() && |history| == ContextLen() + |rows|
      && forall j :: 0 <= j < |rows| ==> RowIsExact(history[j..j + c.ngramSize], rows[j])
    }

    /** What makes hashing exact: tokens of the vocabulary, and multipliers that fit it. */
    ghost predicate Hashable(vocab: nat, shifted: seq<int>)
      requires Valid() && |shifted| == c.ngramSize
    {
      && TokensBelow(vocab, shifted)
      && (forall s :: 0 <= s < c.ngramSize ==> multipliers[s] >= 0 && NeverOverflows(multipliers[s], vocab))
    }

    lemma WindowIsHashable(vocab: nat, layer: nat, seed: int, window: seq<int>)
      requires BuiltFor(vocab, layer, seed) && vocab <= INT64_MAX && 0 <= eos < vocab
      requires |window| == c.ngramSize && TokensBelow(vocab, window)
      ensures Hashable(vocab, Shifts(window))
    {
      MultipliersFit(vocab, layer, seed, multipliers);
      forall s | 0 <= s < c.ngramSize
        ensures 0 <= Shifts(window)[s] < vocab
      {
        TokenBackBelow(vocab, window, eos, ContextLen(), s);
      }
    }

    lemma EntryOfNgram(vocab: nat, shifted: seq<int>, h: nat, n: nat)
      requires Valid() && |shifted| == c.ngramSize && h < c.Heads() && Hashable(vocab, shifted)
      requires HeadOfNgram(c, h, n) && n <= c.ngramSize
      ensures HeadRows(c, geo, multipliers, shifted)[h] == ExactMix(shifted, multipliers, n) % geo.sizes[h] + geo.offsets[h]
    {
      NgramOfHead(c, h);
      assert n == 2 + h / c.headsPerNgram;
      MixIsExact(shifted, multipliers, n, vocab);
    }

    lemma EntryIsExact(vocab: nat, layer: nat, shifted: seq<int>, h: nat)
      requires Valid() && GeometryOf(c, layer, geo) && |shifted| == c.ngramSize && h < c.Heads() && Hashable(vocab, shifted)
      ensures HeadIsExact(shifted, HeadRows(c, geo, multipliers, shifted), h)
    {
      forall n | 2 <= n <= c.ngramSize && HeadOfNgram(c, h, n)
        ensures HeadRows(c, geo, multipliers, shifted)[h] == ExactMix(shifted, multipliers, n) % geo.sizes[h] + geo.offsets[h]
      {
        EntryOfNgram(vocab, shifted, h, n);
      }
      SomeNgram(c, h);
      HeadRowsStayInRange(c, layer, geo, multipliers, shifted, h);
    }

    /** In a table the code builds every row of a window of vocabulary tokens is exact. */
    lemma WindowIsExact(vocab: nat, layer: nat, seed: int, window: seq<int>)
      requires BuiltFor(vocab, layer, seed) && vocab <= INT64_MAX && 0 <= eos < vocab
      requires |window| == c.ngramSize && TokensBelow(vocab, window)
      ensures RowIsExact(window, RowOfWindow(window))
    {
      var shifted, row := Shifts(window), RowOfWindow(window);
      WindowIsHashable(vocab, layer, seed, window);
      forall h | 0 <= h < c.Heads()
        ensures HeadIsExact(shifted, row, h)
      {
        EntryIsExact(vocab, layer, shifted, h);
      }
    }

    lemma ChunkIsExact(vocab: nat, layer: nat, seed: int, prev: seq<int>, ids: seq<int>)
      requires BuiltFor(vocab, layer, seed) && vocab <= INT64_MAX && 0 <= eos < vocab
      requires |prev| == ContextLen() && TokensBelow(vocab, prev + ids)
      ensures RowsAreExact(prev + ids, FeedChunk(RowOfWindow, ContextLen(), prev, ids).0)
    {
      var history := prev + ids;
      var rows := FeedChunk(RowOfWindow, ContextLen(), prev, ids).0;
      forall j | 0 <= j < |rows|
        ensures RowIsExact(history[j..j + c.ngramSize], rows[j])
      {
        SliceBelow(vocab, history, j, j + c.ngramSize);
        WindowIsExact(vocab, layer, seed, history[j..j + c.ngramSize]);
      }
    }

    /** The last rows kept for a chunk are those of the chunk's own windows, unless the
        chunk is empty: `[-0:]` keeps all of them. */
    lemma RowsAreWindows(prev: seq<int>, ids: seq<int>)
      requires Valid() && |prev| == ContextLen()
      ensures LastItems(RowsOf(prev + ids), |ids|) == Windows(RowOfWindow, ContextLen(), prev + ids) <==> ids != []
    {
      var n, history := ContextLen(), prev + ids;
      var rows, windows := RowsOf(history), Windows(RowOfWindow, n, history);
      if ids == [] {
        assert |LastItems(rows, |ids|)| == n > |windows|;
      } else {
        forall j | 0 <= j < |ids|
          ensures rows[n + j] == windows[j]
        {
          WindowRow(history, j);
        }
        assert LastItems(rows, |ids|) == rows[n..] == windows;
      }
    }

    lemma WindowRow(history: seq<int>, j: nat)
      requires Valid() && ContextLen() + j < |history|
      ensures RowsOf(history)[ContextLen() + j] == RowOfWindow(history[j..j + ContextLen() + 1])
    {
      var n, i := ContextLen(), ContextLen() + j;
      var w := history[j..j + n + 1];
      assert history[i - n..i + 1] == w;
      forall s | 0 <= s < c.ngramSize
        ensures ShiftedAt(c, history, eos, i)[s] == TokenBack(w, eos, n, s)
      {
        ShiftIsTokenBack(history, eos, s, i);
        TokenBackIsLocal(history, eos, i, n, s);
      }
      assert ShiftedAt(c, history, eos, i) == Shifts(w);
    }
  }

  /** The first token of a stream can hash to a row that no shard holds: token 444 of a vocabulary
      of 248320, with the default seed and the smallest such table. */
  lemma FirstTokenHasNoShard(vocab: nat, seed: int)
    requires vocab == 248320 && seed == 1234
    ensures var table := Table(SMALL_TABLE, SMALL_GEOMETRY,
        [LayerMultiplier(vocab, 0, seed, 0), LayerMultiplier(vocab, 0, seed, 1)], 0);
      && table.BuiltFor(vocab, 0, seed) && table.RowOfWindow(table.Padding() + [444]) == [520]
      && 520 / table.geo.rowsPerShard >= table.c.splitParts
  {
    SmallTableLosesRows();
    DefaultSeedMultiplier(vocab, seed);
    var m0, m1 := LayerMultiplier(vocab, 0, seed, 0), LayerMultiplier(vocab, 0, seed, 1);
    SmallTableRow(m0, m1);
    var table := Table(SMALL_TABLE, SMALL_GEOMETRY, [m0, m1], 0);
    FirstTokenShifts(table, 444);
  }

  lemma FirstTokenShifts(table: Table, t: int)
    requires table.Valid() && table.c.ngramSize == 2
    ensures table.Padding() + [t] == [table.eos, t] && table.Shifts([table.eos, t]) == [t, table.eos]
  {
  }

  /** One layer's embedding with its context slot. */
  class NGramEmbedding {
    const table: Table
    ghost const vocab: nat
    ghost const layer: nat
    ghost const seed: int
    var slot: Option<seq<int>>

    constructor (c: Config, vocab: nat, layer: nat, seed: int, eos: int)
      requires c.Valid()
      ensures this.vocab == vocab && this.layer == layer && this.seed == seed
      ensures table.c == c && table.eos == eos && slot == None && Valid()
      ensures forall t :: t in Context() ==> t == eos
    {
      var geo := NgramTableGeometry(c, layer);
      var multipliers := BuildLayerMultipliers(vocab, c.ngramSize, layer, seed);
      table := Table(c, geo, multipliers, eos);
      this.vocab, this.layer, this.seed := vocab, layer, seed;
      slot := None;
    }

    /** The table is the one built for this layer, and the slot holds what it is read for. */
    ghost predicate Valid()
      reads this
    {
      table.BuiltFor(vocab, layer, seed) && |Context()| == table.ContextLen()
    }

    /** The tokens are in the vocabulary, which 64 bits can hash. */
    ghost predicate InVocabulary(tokens: seq<int>) {
      vocab <= INT64_MAX && 0 <= table.eos < vocab && TokensBelow(vocab, tokens)
    }

    /** Rows for the tokens after a context are exact, when all are in the vocabulary. */
    ghost predicate AreExact(history: seq<int>, rows: seq<seq<int>>) {
      InVocabulary(history) ==> table.RowsAreExact(history, rows)
    }

    lemma FedIsExact(prev: seq<int>, ids: seq<int>)
      requires table.BuiltFor(vocab, layer, seed) && |prev| == table.ContextLen()
      ensures AreExact(prev + ids, FeedChunk(table.RowOfWindow, table.ContextLen(), prev, ids).0)
    {
      if InVocabulary(prev + ids) {
        table.ChunkIsExact(vocab, layer, seed, prev, ids);
      }
    }

    /** The tokens the next chunk continues. */
    ghost function Context(): seq<int>
      requires table.Valid()
      reads this
    {
      if slot.Some? then slot.value else table.Padding()
    }

    method NgramIds(ids: seq<int>) returns (rows: seq<seq<int>>)
      requires Valid()
      modifies this
      ensures Valid() && slot == Some(LastItems(old(Context()) + ids, table.ContextLen()))
      ensures ids != [] ==> AreExact(old(Context()) + ids, rows)
      ensures ids != [] ==>
        (rows, Context()) == FeedChunk(table.RowOfWindow, table.ContextLen(), old(Context()), ids)
      ensures ids == [] ==> rows == table.RowsOf(old(Context()))
    {
      assert Context() + [] == Context();
      var prev := if slot.Some? then slot.value else table.Padding();
      var history := prev + ids;
      slot := Some(LastItems(history, table.ContextLen()));
      rows := LastItems(table.RowsOf(history), |ids|);
      if ids != [] {
        table.RowsAreWindows(prev, ids);
        FedIsExact(prev, ids);
      }
    }

    /** `rows` and `after` are what tokens after a context give. */
    ghost predicate Fed(start: seq<int>, tokens: seq<int>, rows: seq<seq<int>>, after: seq<int>) {
      && table.Valid() && |start| == table.ContextLen()
      && (rows, after) == FeedChunk(table.RowOfWindow, table.ContextLen(), start, tokens)
    }

    lemma FedOneMore(start: seq<int>, chunks: seq<seq<int>>, i: nat, rows: seq<seq<int>>, context: seq<int>,
                     out: seq<seq<int>>, after: seq<int>)
      requires i < |chunks| && Fed(start, Flatten(chunks[..i]), rows, context) && Fed(context, chunks[i], out, after)
      ensures Fed(start, Flatten(chunks[..i + 1]), rows + out, after)
    {
      FeedOneMore(table.RowOfWindow, table.ContextLen(), start, chunks, i, rows, context, out, after);
    }

    /** A stream in non-empty chunks gives the ids of one call on the whole stream. */
    method NgramIdsOfChunks(chunks: seq<seq<int>>) returns (rows: seq<seq<int>>)
      requires Valid()
      requires forall c :: c in chunks ==> c != []
      modifies this
      ensures Valid()
      ensures AreExact(old(Context()) + Flatten(chunks), rows)
      ensures (rows, Context())
           == FeedChunk(table.RowOfWindow, table.ContextLen(), old(Context()), Flatten(chunks))
    {
      ghost var start := Context();
      rows := [];
      var i := 0;
      assert start + [] == start && FeedChunk(table.RowOfWindow, table.ContextLen(), start, []).0 == [];
      while i < |chunks|
        invariant 0 <= i <= |chunks| && Valid()
        invariant Fed(start, Flatten(chunks[..i]), rows, Context())
      {
        assert chunks[i] in chunks;
        ghost var before := Context();
        var out := NgramIds(chunks[i]);
        FedOneMore(start, chunks, i, rows, before, out, Context());
        rows := rows + out;
        i := i + 1;
      }
      assert chunks[..i] == chunks;
      FedIsExact(start, Flatten(chunks));
    }
  }

  /******* The dilated convolution *******/

  /** One output: taps `dilation` apart, oldest first. */
  function Taps(kernel: seq<real>, dilation: nat, window: seq<real>, k: nat): real
    requires k <= |kernel| && (k > 0 ==> (k - 1) * dilation < |window|)
    decreases k
  {
    if k == 0 then 0.0
    else
      TapInside(k, dilation);
      Taps(kernel, dilation, window, k - 1) + kernel[k - 1] * window[(k - 1) * dilation]
  }

  lemma TapInside(k: nat, dilation: nat)
    requires k > 0
    ensures k > 1 ==> (k - 2) * dilation <= (k - 1) * dilation
  {
  }

  /** One input, all others being zero, comes out weighted by the tap that meets it, and not at all
      between taps. */
  lemma {:induction false} TapsOfOneInput(kernel: seq<real>, dilation: nat, window: seq<real>, k: nat, p: nat)
    requires dilation > 0 && k <= |kernel| && (k > 0 ==> (k - 1) * dilation < |window|) && p < |window|
    requires forall i :: 0 <= i < |window| && i != p ==> window[i] == 0.0
    ensures forall t :: 0 <= t < k && p == t * dilation ==> Taps(kernel, dilation, window, k) == kernel[t] * window[p]
    ensures (forall t :: 0 <= t < k ==> p != t * dilation) ==> Taps(kernel, dilation, window, k) == 0.0
  {
    if k > 0 {
      TapInside(k, dilation);
      TapsOfOneInput(kernel, dilation, window, k - 1, p);
      var at := (k - 1) * dilation;
      if at == p {
        forall t | 0 <= t < k - 1
          ensures p != t * dilation
        {
          TapsApart(t, k - 1, dilation);
        }
      } else {
        assert kernel[k - 1] * window[at] == 0.0;
      }
    }
  }

  lemma TapsApart(t: nat, u: nat, dilation: nat)
    requires t < u && dilation > 0
    ensures t * dilation < u * dilation
  {
  }

  /** Outputs add up as inputs do. */
  lemma {:induction false} TapsAdd(kernel: seq<real>, dilation: nat, a: seq<real>, b: seq<real>, sum: seq<real>, k: nat)
    requires k <= |kernel| && |a| == |b| == |sum| && (k > 0 ==> (k - 1) * dilation < |a|)
    requires forall i :: 0 <= i < |a| ==> sum[i] == a[i] + b[i]
    ensures Taps(kernel, dilation, sum, k) == Taps(kernel, dilation, a, k) + Taps(kernel, dilation, b, k)
  {
    if k > 0 {
      TapInside(k, dilation);
      TapsAdd(kernel, dilation, a, b, sum, k - 1);
      var at := (k - 1) * dilation;
      Distributes(kernel[k - 1], a[at], b[at]);
    }
  }

  lemma Distributes(x: real, y: real, z: real)
    ensures x * (y + z) == x * y + x * z
  {
  }

  /** A depthwise convolution without padding, over `state` and the new inputs. */
  function Conv1d(kernel: seq<real>, dilation: nat, full: seq<real>): (out: seq<real>)
    requires kernel != [] && (|kernel| - 1) * dilation <= |full|
    ensures |out| == |full| - (|kernel| - 1) * dilation
  {
    var n := (|kernel| - 1) * dilation;
    seq(|full| - n, j requires 0 <= j < |full| - n => Taps(kernel, dilation, full[j..], |kernel|))
  }

  lemma {:induction false} TapsAreLocal(kernel: seq<real>, dilation: nat, long: seq<real>, n: nat, k: nat)
    requires k <= |kernel| && n < |long| && (k > 0 ==> (k - 1) * dilation <= n)
    ensures Taps(kernel, dilation, long, k) == Taps(kernel, dilation, long[..n + 1], k)
  {
    if k > 0 {
      TapInside(k, dilation);
      TapsAreLocal(kernel, dilation, long, n, k - 1);
    }
  }

  lemma ConvIsWindows(kernel: seq<real>, dilation: nat, full: seq<real>, n: nat, j: nat)
    requires kernel != [] && n == (|kernel| - 1) * dilation && j + n < |full|
    ensures Conv1d(kernel, dilation, full)[j] == Taps(kernel, dilation, full[j..j + n + 1], |kernel|)
  {
    TapsAreLocal(kernel, dilation, full[j..], n, |kernel|);
    assert full[j..][..n + 1] == full[j..j + n + 1];
  }

  /** The convolution of one channel with its state slot. */
  class ShortConv {
    const kernel: seq<real>
    const dilation: nat
    const stateLen: nat
    const silu: real -> real
    var state: Option<seq<real>>

    ghost predicate Valid()
      reads this
    {
      |kernel| >= 2 && stateLen >= 1 && stateLen == (|kernel| - 1) * dilation && |State()| == stateLen
    }

    ghost function State(): seq<real>
      reads this
    {
      if state.Some? then state.value else seq(stateLen, i => 0.0)
    }

    constructor (kernel: seq<real>, dilation: nat, silu: real -> real)
      requires |kernel| >= 2 && dilation >= 1
      ensures Valid() && state == None && |State()| == (|kernel| - 1) * dilation && forall x :: x in State() ==> x == 0.0
      ensures this.kernel == kernel && this.dilation == dilation && this.silu == silu
    {
      this.kernel, this.dilation, this.silu := kernel, dilation, silu;
      TapInside(|kernel|, dilation);
      assert (|kernel| - 1) * dilation >= 1 * dilation;
      stateLen := (|kernel| - 1) * dilation;
      state := None;
    }

    /** The activated output of one window of the stream. */
    function OfWindow(window: seq<real>): real {
      if |kernel| == 0 || (|kernel| - 1) * dilation >= |window| then 0.0
      else silu(Taps(kernel, dilation, window, |kernel|))
    }

    /** One chunk: the result is that of the windows of the stream, so a cut is invisible. */
    method Run(x: seq<real>) returns (out: seq<real>)
      requires Valid()
      modifies this
      ensures Valid()
      ensures (out, State()) == FeedChunk(OfWindow, stateLen, old(State()), x)
    {
      var held := if state.Some? then state.value else seq(stateLen, i => 0.0);
      var full := held + x;
      state := Some(LastItems(full, stateLen));
      var conv := Conv1d(kernel, dilation, full);
      out := seq(|conv|, j requires 0 <= j < |conv| => silu(conv[j]));
      ActivatedAreWindows(full, out);
    }

    lemma ActivatedAreWindows(full: seq<real>, out: seq<real>)
      requires Valid() && stateLen <= |full| && |out| == |full| - stateLen
      requires forall j :: 0 <= j < |out| ==> out[j] == silu(Conv1d(kernel, dilation, full)[j])
      ensures out == Windows(OfWindow, stateLen, full)
    {
      forall j | 0 <= j < |out|
        ensures out[j] == OfWindow(full[j..j + stateLen + 1])
      {
        ConvIsWindows(kernel, dilation, full, stateLen, j);
      }
    }
  }
}
