/**
 Geometry and hash of the n-gram tables of one PLE layer.
 */
module NGramTables {
  import opened Arithmetic
  import opened Primes

  /******* Geometry *******/

  /** The configuration the geometry depends on; at least one head, as the code needs. */
  datatype Config = Config(ngramSize: nat, headsPerNgram: nat, vocabBase: nat, divisibleBy: nat, splitParts: nat,
                           embedDim: nat) {
    predicate Valid() {
      ngramSize >= 2 && headsPerNgram >= 1 && divisibleBy >= 1 && splitParts >= 1
    }

    function Heads(): (n: nat)
      requires Valid()
      ensures n > 0
    {
      MulMonotone(headsPerNgram, 1, ngramSize - 1);
      (ngramSize - 1) * headsPerNgram
    }
  }

  datatype Geometry = Geometry(sizes: seq<nat>, offsets: seq<nat>, total: nat, padded: nat, headDim: nat, rowsPerShard: nat)

  function SumOf(s: seq<nat>): nat {
    if s == [] then 0 else SumOf(s[..|s| - 1]) + s[|s| - 1]
  }

  /** `ceil(total / div) * div`. */
  function PaddedTo(total: nat, div: nat): (padded: nat)
    requires div > 0
  {
    (total + div - 1) / div * div
  }

  lemma PaddedIsLeastMultiple(total: nat, div: nat, k: nat)
    requires div > 0
    ensures Divides(div, PaddedTo(total, div)) && total <= PaddedTo(total, div) < total + div
    ensures div * k >= total ==> div * k >= PaddedTo(total, div)
  {
    var t := total + div - 1;
    var q := t / div;
    assert t == div * q + t % div;
    assert Product(q * div, div, q);
    if div * k >= total && k < q {
      MulMonotone(div, k + 1, q);
      MulSuccessor(div, k);
    } else if k >= q {
      MulMonotone(div, q, k);
    }
  }

  /** The size of head `h` of PLE layer `layer` is a prime of its own. */
  ghost predicate HeadSize(c: Config, layer: nat, h: nat, size: int)
    requires c.Valid()
  {
    NthPrimeAfter(c.vocabBase - 1, layer * c.Heads() + h + 1, size)
  }

  /** Offsets are the running sums of the sizes, and the padded table holds them all. */
  ghost predicate Stacked(geo: Geometry, heads: nat) {
    && |geo.sizes| == |geo.offsets| == heads
    && (forall h :: 0 <= h < heads ==> geo.offsets[h] == SumOf(geo.sizes[..h]))
    && geo.total == SumOf(geo.sizes) <= geo.padded
  }

  ghost predicate GeometryOf(c: Config, layer: nat, geo: Geometry)
    requires c.Valid()
  {
    && |geo.sizes| == |geo.offsets| == c.Heads()
    && (forall h :: 0 <= h < c.Heads() ==> geo.sizes[h] > 0 && HeadSize(c, layer, h, geo.sizes[h]))
    && (forall h :: 0 <= h < c.Heads() ==> geo.offsets[h] == SumOf(geo.sizes[..h]))
    && geo.total == SumOf(geo.sizes)
    && geo.padded == PaddedTo(geo.total, c.divisibleBy)
    && geo.headDim == c.embedDim / c.Heads()
    && geo.rowsPerShard == geo.padded / c.splitParts
  }

  /** The first heads: their sizes, and running sums of them. */
  ghost predicate FirstHeads(c: Config, layer: nat, sizes: seq<nat>, offsets: seq<nat>, total: nat)
    requires c.Valid()
  {
    && |sizes| == |offsets| && total == SumOf(sizes)
    && (forall i :: 0 <= i < |sizes| ==> sizes[i] > 0 && HeadSize(c, layer, i, sizes[i]))
    && (forall i :: 0 <= i < |sizes| ==> offsets[i] == SumOf(sizes[..i]))
  }

  lemma OneMoreHead(c: Config, layer: nat, sizes: seq<nat>, offsets: seq<nat>, total: nat, size: nat)
    requires c.Valid() && FirstHeads(c, layer, sizes, offsets, total) && size > 0 && HeadSize(c, layer, |sizes|, size)
    ensures FirstHeads(c, layer, sizes + [size], offsets + [total], total + size)
  {
    var more := sizes + [size];
    assert more[..|sizes|] == sizes;
    forall i | 0 <= i < |sizes|
      ensures more[..i] == sizes[..i]
    {
    }
  }

  method SizeOfHead(c: Config, layer: nat, h: nat) returns (size: nat)
    requires c.Valid()
    ensures size > 0 && HeadSize(c, layer, h, size)
  {
    size := FindNthPrimeAfter(c.vocabBase - 1, layer * c.Heads() + h + 1);
  }

  method NgramTableGeometry(c: Config, layer: nat) returns (geo: Geometry)
    requires c.Valid()
    ensures GeometryOf(c, layer, geo)
  {
    var heads := c.Heads();
    var sizes: seq<nat>, offsets: seq<nat>, total := [], [], 0;
    for h := 0 to heads
      invariant |sizes| == h && total >= 0 && FirstHeads(c, layer, sizes, offsets, total)
    {
      var size := SizeOfHead(c, layer, h);
      OneMoreHead(c, layer, sizes, offsets, total, size);
      offsets := offsets + [total];
      sizes := sizes + [size];
      total := total + size;
    }
    var padded := PaddedTo(total, c.divisibleBy);
    geo := Geometry(sizes, offsets, total, padded, c.embedDim / heads, padded / c.splitParts);
  }

  /** All head tables, across heads and across layers, have distinct prime sizes, none
      below the base. */
  lemma HeadSizesAreDistinctPrimes(c: Config, l: nat, h: nat, p: int, l': nat, h': nat, q: int)
    requires c.Valid() && h < c.Heads() && h' < c.Heads()
    requires HeadSize(c, l, h, p) && HeadSize(c, l', h', q)
    ensures Prime(p) && p >= c.vocabBase
    ensures p == q <==> l == l' && h == h'
  {
    var n := c.Heads();
    NthPrimeIncreases(c.vocabBase - 1, l * n + h + 1, l' * n + h' + 1, p, q);
    if l * n + h == l' * n + h' {
      UniqueRemainder(n, l, h, l', h');
    }
  }

  lemma {:induction false} SumMonotone(s: seq<nat>, i: nat, j: nat)
    requires i <= j <= |s|
    ensures SumOf(s[..i]) <= SumOf(s[..j])
    ensures i < j ==> SumOf(s[..i]) + s[i] <= SumOf(s[..j])
  {
    if i < j {
      assert s[..j][..j - 1] == s[..j - 1];
      if i < j - 1 {
        SumMonotone(s, i, j - 1);
      }
    }
  }

  lemma GeometryIsStacked(c: Config, layer: nat, geo: Geometry)
    requires c.Valid() && GeometryOf(c, layer, geo)
    ensures Stacked(geo, c.Heads())
  {
    PaddedIsLeastMultiple(geo.total, c.divisibleBy, 0);
  }

  /** Every head writes into its own rows, inside the table: a row tells its head. */
  lemma HeadRangesAreDisjoint(geo: Geometry, heads: nat, h: nat, h': nat, row: nat)
    requires Stacked(geo, heads) && h < heads && h' < heads
    requires geo.offsets[h] <= row < geo.offsets[h] + geo.sizes[h]
    ensures row < geo.total <= geo.padded
    ensures geo.offsets[h'] <= row < geo.offsets[h'] + geo.sizes[h'] <==> h == h'
  {
    assert geo.sizes[..heads] == geo.sizes;
    SumMonotone(geo.sizes, h, heads);
    if h < h' {
      SumMonotone(geo.sizes, h, h');
    } else if h' < h {
      SumMonotone(geo.sizes, h', h);
    }
  }

  /** A shard index stays below the number of shards for every row below `limit`
      exactly when the shards together hold `limit` rows. */
  lemma ShardIndexInRange(rows: nat, shards: nat, limit: nat)
    requires rows > 0
    ensures (forall id: nat :: id < limit ==> id / rows < shards) <==> limit <= rows * shards
  {
    if limit <= rows * shards {
      forall id: nat | id < limit
        ensures id / rows < shards
      {
        assert id == rows * (id / rows) + id % rows;
        if id / rows >= shards {
          MulMonotone(rows, shards, id / rows);
        }
      }
    } else {
      var id := rows * shards;
      UniqueRemainder(rows, shards, 0, id / rows, id % rows);
      assert id < limit && id / rows == shards;
    }
  }

  /** Every row the code can look up has a shard if and only if the shards together hold the rows
      of the heads. When there are more shards than padded rows, a shard has no rows at all. */
  lemma RowsHaveShards(c: Config, layer: nat, geo: Geometry)
    requires c.Valid() && GeometryOf(c, layer, geo)
    ensures (geo.rowsPerShard > 0 && forall id: nat :: id < geo.total ==> id / geo.rowsPerShard < c.splitParts)
       <==> geo.total <= geo.rowsPerShard * c.splitParts
  {
    SumMonotone(geo.sizes, 0, |geo.sizes|);
    assert geo.sizes[..|geo.sizes|] == geo.sizes;
    if geo.rowsPerShard > 0 {
      ShardIndexInRange(geo.rowsPerShard, c.splitParts, geo.total);
    }
  }

  /** Padding to a multiple of the number of shards is enough for that. */
  lemma DivisiblePaddingSuffices(c: Config, layer: nat, geo: Geometry)
    requires c.Valid() && GeometryOf(c, layer, geo) && Divides(c.splitParts, c.divisibleBy)
    ensures geo.padded == geo.rowsPerShard * c.splitParts && geo.total <= geo.rowsPerShard * c.splitParts
  {
    PaddedIsLeastMultiple(geo.total, c.divisibleBy, 0);
    DividesTransitive(c.splitParts, c.divisibleBy, geo.padded);
    RemainderDecides(c.splitParts, geo.padded);
    ExactQuotient(geo.padded, c.splitParts);
  }

  lemma ExactQuotient(n: nat, d: nat)
    requires d > 0 && n % d == 0
    ensures n == n / d * d
  {
  }

  /** A configuration with the default padding to 128 and the default 512 shards, for which the
      table has 521 rows and its shards hold 512. */
  const SMALL_TABLE: Config := Config(2, 1, 521, 128, 512, 64)
  const SMALL_GEOMETRY: Geometry := Geometry([521], [0], 521, 640, 64, 1)

  lemma SmallTableLosesRows()
    ensures SMALL_TABLE.Valid() && GeometryOf(SMALL_TABLE, 0, SMALL_GEOMETRY)
    ensures SMALL_GEOMETRY.total > SMALL_GEOMETRY.rowsPerShard * SMALL_TABLE.splitParts
  {
    assert Prime(521);
    assert PrimesIn(520, 521) == PrimesIn(520, 520) + 1;
    assert [521][..0] == [];
    assert HeadSize(SMALL_TABLE, 0, 0, 521);
  }

  /******* The hash *******/

  const INT64_MAX: int := 0x7FFF_FFFF_FFFF_FFFF
  const TWO_63: int := 0x8000_0000_0000_0000
  const TWO_64: int := 0x1_0000_0000_0000_0000
  const SPLITMIX_GAMMA: int := 0x9E37_79B9_7F4A_7C15
  const PRIME_1: int := 10007

  function SplitMix64(v: bv64): bv64 {
    var a := v + 0x9E37_79B9_7F4A_7C15;
    var b := (a ^ (a >> 30)) * 0xBF58_476D_1CE4_E5B9;
    var c := (b ^ (b >> 27)) * 0x94D0_49BB_1331_11EB;
    c ^ (c >> 31)
  }

  /** No product of a token and this multiplier leaves the signed 64-bit range. */
  ghost predicate NeverOverflows(multiplier: int, vocab: nat) {
    multiplier > 0 && multiplier % 2 == 1 && forall t: nat :: t < vocab ==> t * multiplier <= INT64_MAX
  }

  function Hashed(v: nat): nat
    requires v < TWO_64
  {
    SplitMix64(v as bv64) as nat
  }

  function HalfBound(vocab: nat): (half: nat)
    ensures half >= 1
  {
    var multiplierMax := INT64_MAX / (if vocab >= 1 then vocab else 1);
    if multiplierMax / 2 >= 1 then multiplierMax / 2 else 1
  }

  /** The multiplier of shift `index`, drawn from a hash of seed, layer and shift. */
  function LayerMultiplier(vocab: nat, layer: nat, seed: int, index: nat): int {
    2 * (Hashed((seed + PRIME_1 * layer + SPLITMIX_GAMMA * (index + 1)) % TWO_64) % HalfBound(vocab)) + 1
  }

  method BuildLayerMultipliers(vocab: nat, ngramSize: nat, layer: nat, seed: int) returns (out: seq<int>)
    ensures |out| == ngramSize
    ensures forall i :: 0 <= i < ngramSize ==> out[i] == LayerMultiplier(vocab, layer, seed, i)
    ensures vocab <= INT64_MAX ==> forall i :: 0 <= i < ngramSize ==> NeverOverflows(out[i], vocab)
  {
    var multiplierMax := INT64_MAX / (if vocab >= 1 then vocab else 1);
    var halfBound := if multiplierMax / 2 >= 1 then multiplierMax / 2 else 1;
    var baseSeed := seed + PRIME_1 * layer;
    out := [];
    for index := 0 to ngramSize
      invariant |out| == index
      invariant forall i :: 0 <= i < index ==> out[i] == LayerMultiplier(vocab, layer, seed, i)
    {
      var value := (baseSeed + SPLITMIX_GAMMA * (index + 1)) % TWO_64;
      out := out + [2 * (Hashed(value) % halfBound) + 1];
    }
    if vocab <= INT64_MAX {
      MultipliersFit(vocab, layer, seed, out);
    }
  }

  /** Every multiplier is odd, and no token times a multiplier overflows. */
  lemma MultiplierFits(vocab: nat, layer: nat, seed: int, index: nat)
    requires vocab <= INT64_MAX
    ensures NeverOverflows(LayerMultiplier(vocab, layer, seed, index), vocab)
  {
    HalfBoundFits(vocab, Hashed((seed + PRIME_1 * layer + SPLITMIX_GAMMA * (index + 1)) % TWO_64) % HalfBound(vocab));
  }

  lemma MultipliersFit(vocab: nat, layer: nat, seed: int, multipliers: seq<int>)
    requires vocab <= INT64_MAX
    requires forall i :: 0 <= i < |multipliers| ==> multipliers[i] == LayerMultiplier(vocab, layer, seed, i)
    ensures forall i :: 0 <= i < |multipliers| ==> NeverOverflows(multipliers[i], vocab)
  {
    forall i | 0 <= i < |multipliers|
      ensures NeverOverflows(multipliers[i], vocab)
    {
      MultiplierFits(vocab, layer, seed, i);
    }
  }

  lemma HalfBoundFits(vocab: nat, x: nat)
    requires vocab <= INT64_MAX && x < HalfBound(vocab)
    ensures NeverOverflows(2 * x + 1, vocab)
  {
    var m := 2 * x + 1;
    var multiplierMax := INT64_MAX / (if vocab >= 1 then vocab else 1);
    forall t: nat | t < vocab
      ensures t * m <= INT64_MAX
    {
      if multiplierMax / 2 >= 1 {
        MulMonotone(t, m, multiplierMax);
        MulMonotone(multiplierMax, t, vocab);
        assert INT64_MAX == vocab * multiplierMax + INT64_MAX % vocab;
      }
    }
  }

  /** Converting to bits and back changes nothing. */
  lemma BitsAndBack(w: bv64)
    ensures (w as nat) as bv64 == w
  {
  }

  lemma HashOfBits(v: nat, w: bv64, hash: bv64)
    requires v == w as nat && SplitMix64(w) == hash
    ensures v < TWO_64 && Hashed(v) == hash as nat
  {
    BitsAndBack(w);
  }

  /** The bound is the largest half whose odd multiplier cannot overflow, but at least one. */
  lemma HalfBoundIsLargest(vocab: nat, half: nat)
    requires 1 <= vocab <= INT64_MAX
    ensures half <= HalfBound(vocab) <==> half <= 1 || 2 * half * vocab <= INT64_MAX
  {
    var most := INT64_MAX / vocab;
    assert INT64_MAX == vocab * most + INT64_MAX % vocab;
    MulAssociates(2, half, vocab);
    if 2 * half <= most {
      MulMonotone(vocab, 2 * half, most);
    } else {
      MulMonotone(vocab, most + 1, 2 * half);
    }
  }

  lemma DefaultHalfBound(vocab: nat)
    requires vocab == 248320
    ensures HalfBound(vocab) == 18571544855136
  {
  }

  /** The multiplier drawn by a known hash. */
  lemma Drawn(vocab: nat, layer: nat, seed: int, index: nat, v: nat, bits: bv64, hash: bv64, rest: nat)
    requires vocab == 248320 && v == bits as nat && SplitMix64(bits) == hash
    requires (seed + PRIME_1 * layer + SPLITMIX_GAMMA * (index + 1)) % TWO_64 == v
    requires rest == hash as nat % 18571544855136
    ensures LayerMultiplier(vocab, layer, seed, index) == 2 * rest + 1
  {
    DefaultHalfBound(vocab);
    HashOfBits(v, bits, hash);
  }

  /** The first multiplier of layer 0, for the default seed and a vocabulary of 248320. */
  lemma DefaultSeedMultiplier(vocab: nat, seed: int)
    requires vocab == 248320 && seed == 1234
    ensures LayerMultiplier(vocab, 0, seed, 0) == 23703573157769
  {
    Drawn(vocab, 0, seed, 0, 0x9E37_79B9_7F4A_80E7, 0x9E37_79B9_7F4A_80E7, 0x97C7_A136_4DF0_6524, 11851786578884);
  }

  /** The third one of layer 3. */
  lemma LaterMultiplier(vocab: nat, seed: int)
    requires vocab == 248320 && seed == 1234
    ensures LayerMultiplier(vocab, 3, seed, 2) == 34053165192151
  {
    Drawn(vocab, 3, seed, 2, 0xDAA6_6D2C_7DDF_EE56, 0xDAA6_6D2C_7DDF_EE56, 0x9B3D_284B_38B5_462B, 17026582596075);
  }

  /** Exclusive or of non-negative numbers, bit by bit. */
  function Xor(a: nat, b: nat): (r: nat)
    decreases a + b
  {
    if a + b == 0 then 0 else 2 * Xor(a / 2, b / 2) + (a % 2 + b % 2) % 2
  }

  /** Bit `k` of a number. */
  function Bit(n: nat, k: nat): (b: nat)
    ensures b <= 1
    decreases k
  {
    if k == 0 then n % 2 else Bit(n / 2, k - 1)
  }

  /** A bit of the exclusive or is set exactly when that bit of the two numbers differs. */
  lemma {:induction false} XorBits(a: nat, b: nat, k: nat)
    ensures Bit(Xor(a, b), k) == 1 <==> Bit(a, k) != Bit(b, k)
    decreases k
  {
    if a + b == 0 {
      ZeroHasNoBits(k);
    } else {
      XorHalves(a, b);
      if k > 0 {
        XorBits(a / 2, b / 2, k - 1);
      }
    }
  }

  lemma XorHalves(a: nat, b: nat)
    requires a + b > 0
    ensures Xor(a, b) / 2 == Xor(a / 2, b / 2) && Xor(a, b) % 2 == (a % 2 + b % 2) % 2
  {
    var half, low := Xor(a / 2, b / 2), (a % 2 + b % 2) % 2;
    assert Xor(a, b) == 2 * half + low;
  }

  lemma {:induction false} ZeroHasNoBits(k: nat)
    ensures Bit(0, k) == 0
  {
    if k > 0 {
      ZeroHasNoBits(k - 1);
    }
  }

  /** Numbers with the same bits are the same. */
  lemma {:induction false} BitsDetermine(a: nat, b: nat)
    requires forall k: nat :: Bit(a, k) == Bit(b, k)
    ensures a == b
    decreases a + b
  {
    assert Bit(a, 0) == Bit(b, 0);
    if a + b > 0 {
      forall k: nat
        ensures Bit(a / 2, k) == Bit(b / 2, k)
      {
        assert Bit(a, k + 1) == Bit(b, k + 1);
      }
      BitsDetermine(a / 2, b / 2);
    }
  }

  /** Mixing a number in twice takes it out again. */
  lemma XorCancels(a: nat, b: nat)
    ensures Xor(Xor(a, b), b) == a && Xor(a, a) == 0 && Xor(a, b) == Xor(b, a)
  {
    forall k: nat
      ensures Bit(Xor(Xor(a, b), b), k) == Bit(a, k)
      ensures Bit(Xor(a, a), k) == Bit(0, k)
      ensures Bit(Xor(a, b), k) == Bit(Xor(b, a), k)
    {
      XorBits(a, b, k);
      XorBits(Xor(a, b), b, k);
      XorBits(a, a, k);
      XorBits(b, a, k);
      ZeroHasNoBits(k);
    }
    BitsDetermine(Xor(Xor(a, b), b), a);
    BitsDetermine(Xor(a, a), 0);
    BitsDetermine(Xor(a, b), Xor(b, a));
  }

  ghost predicate PowerOfTwo(p: nat) {
    p == 1 || (p > 0 && p % 2 == 0 && PowerOfTwo(p / 2))
  }

  lemma {:induction false} XorStaysBelow(a: nat, b: nat, p: nat)
    requires PowerOfTwo(p) && a < p && b < p
    ensures Xor(a, b) < p
  {
    if p > 1 && a + b > 0 {
      XorStaysBelow(a / 2, b / 2, p / 2);
    }
  }

  lemma Double(p: nat)
    requires PowerOfTwo(p)
    ensures PowerOfTwo(2 * p)
  {
  }

  lemma Times8(p: nat)
    requires PowerOfTwo(p)
    ensures PowerOfTwo(8 * p)
  {
    Double(p);
    Double(2 * p);
    Double(4 * p);
  }

  lemma Times512(p: nat)
    requires PowerOfTwo(p)
    ensures PowerOfTwo(512 * p)
  {
    Times8(p);
    Times8(8 * p);
    Times8(64 * p);
  }

  lemma TwoTo63(p: nat)
    requires p == TWO_63
    ensures PowerOfTwo(p)
  {
    var one: nat :| one == 1;
    Times512(one);
    Times512(512 * one);
    Times512(512 * 512 * one);
    Times512(512 * 512 * 512 * one);
    Times512(512 * 512 * 512 * 512 * one);
    Times512(512 * 512 * 512 * 512 * 512 * one);
    Times512(512 * 512 * 512 * 512 * 512 * 512 * one);
  }

  /** Signed 64-bit representation of an integer, as array arithmetic wraps it. */
  function Wrap64(x: int): (w: int)
    ensures -TWO_63 <= w <= INT64_MAX
    ensures 0 <= x <= INT64_MAX ==> w == x
  {
    var u := x % TWO_64;
    if u < TWO_63 then u else u - TWO_64
  }

  function Unsigned64(x: int): (u: nat)
    ensures 0 <= x < TWO_64 ==> u == x
  {
    x % TWO_64
  }

  function Xor64(a: int, b: int): int {
    Wrap64(Xor(Unsigned64(a), Unsigned64(b)))
  }

  lemma XorOf63Bits(a: nat, b: nat)
    requires a <= INT64_MAX && b <= INT64_MAX
    ensures Xor(a, b) <= INT64_MAX
  {
    var p: nat :| p == TWO_63;
    TwoTo63(p);
    XorStaysBelow(a, b, p);
  }

  lemma Xor64IsXor(a: nat, b: nat)
    requires a <= INT64_MAX && b <= INT64_MAX
    ensures Xor64(a, b) == Xor(a, b) <= INT64_MAX
  {
    XorOf63Bits(a, b);
    assert Unsigned64(a) == a && Unsigned64(b) == b;
  }

  /** The mix of the first `n` shifted tokens, in 64-bit arithmetic. */
  function Mix(shifted: seq<int>, multipliers: seq<int>, n: nat): int
    requires 1 <= n <= |shifted| && n <= |multipliers|
  {
    var term := Wrap64(shifted[n - 1] * multipliers[n - 1]);
    if n == 1 then term else Xor64(Mix(shifted, multipliers, n - 1), term)
  }

  /** The same mix over unbounded integers. */
  ghost function ExactMix(shifted: seq<int>, multipliers: seq<int>, n: nat): (m: nat)
    requires 1 <= n <= |shifted| && n <= |multipliers|
    requires forall i :: 0 <= i < n ==> shifted[i] >= 0 && multipliers[i] >= 0
  {
    var term := Term(shifted, multipliers, n - 1);
    if n == 1 then term else Xor(ExactMix(shifted, multipliers, n - 1), term)
  }

  /** For tokens of the vocabulary the 64-bit hash is the exact one, and not negative. */
  lemma {:induction false} MixIsExact(shifted: seq<int>, multipliers: seq<int>, n: nat, vocab: nat)
    requires 1 <= n <= |shifted| && n <= |multipliers|
    requires forall i :: 0 <= i < n ==> 0 <= shifted[i] < vocab
    requires forall i :: 0 <= i < n ==> multipliers[i] >= 0 && NeverOverflows(multipliers[i], vocab)
    ensures Mix(shifted, multipliers, n) == ExactMix(shifted, multipliers, n)
    ensures 0 <= Mix(shifted, multipliers, n) <= INT64_MAX
  {
    ProductFits(shifted[n - 1], multipliers[n - 1], vocab);
    if n > 1 {
      MixIsExact(shifted, multipliers, n - 1, vocab);
      Xor64IsXor(ExactMix(shifted, multipliers, n - 1), shifted[n - 1] * multipliers[n - 1]);
    }
  }

  /** How many of the first `n` products of a token and its multiplier have bit `k` set. */
  ghost function SetBits(shifted: seq<int>, multipliers: seq<int>, n: nat, k: nat): nat
    requires n <= |shifted| && n <= |multipliers|
    requires forall i :: 0 <= i < n ==> shifted[i] >= 0 && multipliers[i] >= 0
  {
    if n == 0 then 0
    else SetBits(shifted, multipliers, n - 1, k) + Bit(Term(shifted, multipliers, n - 1), k)
  }

  ghost function Term(shifted: seq<int>, multipliers: seq<int>, i: nat): nat
    requires i < |shifted| && i < |multipliers| && shifted[i] >= 0 && multipliers[i] >= 0
  {
    shifted[i] * multipliers[i]
  }

  lemma OneMoreTerm(mix: nat, term: nat, count: nat, k: nat)
    requires Bit(mix, k) == count % 2
    ensures Bit(Xor(mix, term), k) == (count + Bit(term, k)) % 2
  {
    XorBits(mix, term, k);
  }

  /** Each bit of the mix is the parity of that bit over all the products. */
  lemma {:induction false} MixBits(shifted: seq<int>, multipliers: seq<int>, n: nat, k: nat)
    requires 1 <= n <= |shifted| && n <= |multipliers|
    requires forall i :: 0 <= i < n ==> shifted[i] >= 0 && multipliers[i] >= 0
    ensures Bit(ExactMix(shifted, multipliers, n), k) == SetBits(shifted, multipliers, n, k) % 2
  {
    if n == 1 {
      assert SetBits(shifted, multipliers, 0, k) == 0;
    } else {
      MixBits(shifted, multipliers, n - 1, k);
      OneMoreTerm(ExactMix(shifted, multipliers, n - 1), Term(shifted, multipliers, n - 1), SetBits(shifted, multipliers, n - 1, k), k);
    }
  }

  lemma {:induction false} XorZero(a: nat)
    ensures Xor(a, 0) == a
  {
    if a > 0 {
      XorZero(a / 2);
    }
  }

  lemma ProductFits(t: nat, m: int, vocab: nat)
    requires t < vocab && NeverOverflows(m, vocab)
    ensures 0 <= t * m <= INT64_MAX
  {
    MulMonotone(t, 0, m);
  }

  /** Table rows of one position, from the tokens 0, 1, ... back: head after head. */
  function HeadRows(c: Config, geo: Geometry, multipliers: seq<int>, shifted: seq<int>): (rows: seq<int>)
    requires c.Valid() && |geo.sizes| == |geo.offsets| == c.Heads()
    requires |shifted| == |multipliers| == c.ngramSize
    requires forall h :: 0 <= h < c.Heads() ==> geo.sizes[h] > 0
    ensures |rows| == c.Heads()
  {
    seq(c.Heads(), h requires 0 <= h < c.Heads() =>
      HeadBlock(c, h);
      var n := 2 + h / c.headsPerNgram;
      Mix(shifted, multipliers, n) % geo.sizes[h] + geo.offsets[h])
  }

  lemma HeadBlock(c: Config, h: nat)
    requires c.Valid() && h < c.Heads()
    ensures h / c.headsPerNgram < c.ngramSize - 1
  {
    ShardIndexInRange(c.headsPerNgram, c.ngramSize - 1, c.Heads());
  }

  /** Head `h` is one of the `headsPerNgram` heads for n-grams of `n` tokens. */
  ghost predicate HeadOfNgram(c: Config, h: nat, n: nat) {
    n >= 2 && (n - 2) * c.headsPerNgram <= h < (n - 1) * c.headsPerNgram
  }

  lemma NgramOfHead(c: Config, h: nat)
    requires c.Valid() && h < c.Heads()
    ensures forall n: nat :: HeadOfNgram(c, h, n) <==> n == 2 + h / c.headsPerNgram
  {
    var per := c.headsPerNgram;
    assert h == per * (h / per) + h % per;
    forall n: nat
      ensures HeadOfNgram(c, h, n) <==> n == 2 + h / per
    {
      if HeadOfNgram(c, h, n) {
        UniqueDivision(h, per, n - 2, h - per * (n - 2));
      }
    }
  }

  lemma SomeNgram(c: Config, h: nat)
    requires c.Valid() && h < c.Heads()
    ensures exists n :: 2 <= n <= c.ngramSize && HeadOfNgram(c, h, n)
  {
    HeadBlock(c, h);
    NgramOfHead(c, h);
    var n := 2 + h / c.headsPerNgram;
    assert HeadOfNgram(c, h, n);
  }

  /** Whatever is hashed, every head stays in its own range of the table. */
  lemma HeadRowsStayInRange(c: Config, layer: nat, geo: Geometry, multipliers: seq<int>, shifted: seq<int>, h: nat)
    requires c.Valid() && GeometryOf(c, layer, geo) && |shifted| == |multipliers| == c.ngramSize
    requires h < c.Heads()
    ensures var row := HeadRows(c, geo, multipliers, shifted)[h];
      geo.offsets[h] <= row < geo.offsets[h] + geo.sizes[h] && row < geo.total
  {
    var row := HeadRows(c, geo, multipliers, shifted)[h];
    GeometryIsStacked(c, layer, geo);
    HeadRangesAreDisjoint(geo, c.Heads(), h, h, row);
  }

  /** In that small table, token 444 after the start of the stream has row 520. */
  lemma SmallTableRow(m0: int, m1: int)
    requires m0 == 23703573157769
    ensures HeadRows(SMALL_TABLE, SMALL_GEOMETRY, [m0, m1], [444, 0]) == [520]
  {
    XorZero(444 * m0);
    assert Mix([444, 0], [m0, m1], 1) == 444 * m0;
    assert Mix([444, 0], [m0, m1], 2) == Xor64(444 * m0, 0) == 444 * m0;
    assert 444 * m0 % 521 == 520;
  }
}
