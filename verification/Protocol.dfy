/**
 The binary messages between the driver and the expert nodes. All header fields are 16-bit
 little-endian words; array contents follow as raw bytes.
 */
module Protocol {
  import opened Collections
  import opened Sorting

  type byte = n: nat | n < 0x100
  type u16 = n: nat | n < 0x1_0000
  type Bytes = seq<byte>

  predicate FitsU16(s: seq<nat>) {
    forall i :: 0 <= i < |s| ==> s[i] < 0x1_0000
  }

  /** Two bytes a word, low byte first. */
  function U16s(words: seq<nat>): (r: Bytes)
    ensures |r| == 2 * |words|
  {
    seq(2 * |words|, i requires 0 <= i < 2 * |words| =>
      if i % 2 == 0 then words[i / 2] % 0x100 else words[i / 2] / 0x100 % 0x100)
  }

  function ReadU16s(raw: Bytes): (words: seq<nat>)
    ensures |words| == |raw| / 2 && FitsU16(words)
  {
    seq(|raw| / 2, i requires 0 <= i < |raw| / 2 => (raw[2 * i] as nat) + 0x100 * (raw[2 * i + 1] as nat))
  }

  lemma WordsRoundTrip(words: seq<nat>)
    requires FitsU16(words)
    ensures ReadU16s(U16s(words)) == words
  {
    var raw := U16s(words);
    forall i | 0 <= i < |words|
      ensures ReadU16s(raw)[i] == words[i]
    {
      assert raw[2 * i] == words[i] % 0x100 && raw[2 * i + 1] == words[i] / 0x100;
    }
  }

  lemma BytesRoundTrip(raw: Bytes)
    requires |raw| % 2 == 0
    ensures U16s(ReadU16s(raw)) == raw
  {
    var words := ReadU16s(raw);
    forall i | 0 <= i < |raw|
      ensures U16s(words)[i] == raw[i]
    {
      assert words[i / 2] == (raw[2 * (i / 2)] as nat) + 0x100 * (raw[2 * (i / 2) + 1] as nat);
    }
  }

  /** Words read from a part are the same words read from the front. */
  lemma ReadPart(raw: Bytes, from: nat, to: nat, end: nat, a: nat, b: nat)
    requires from == 2 * a <= to == 2 * b <= end <= |raw|
    ensures b <= |ReadU16s(raw[..end])| && ReadU16s(raw[from..to]) == ReadU16s(raw[..end])[a..b]
  {
    var part, all := raw[from..to], raw[..end];
    forall i | 0 <= i < b - a
      ensures ReadU16s(part)[i] == ReadU16s(all)[a + i]
    {
      assert part[2 * i] == raw[from + 2 * i] && part[2 * i + 1] == raw[from + 2 * i + 1];
    }
  }

  /** An array: its shape and its elements' bytes. */
  datatype Tensor = Tensor(shape: seq<nat>, data: Bytes)

  function Product(shape: seq<nat>): nat {
    if shape == [] then 1 else shape[0] * Product(shape[1..])
  }

  /** An array of `width`-byte elements. */
  predicate Sized(t: Tensor, width: nat) {
    |t.data| == Product(t.shape) * width
  }

  const F16: nat := 2
  const I32: nat := 4
  const F32: nat := 4

  datatype Request = Request(layer: nat, ids: seq<nat>, hidden: Tensor, inds: Tensor, weights: Tensor)

  function Words(r: Request): seq<nat> {
    [r.layer, |r.ids|] + r.ids + r.hidden.shape + r.inds.shape + r.weights.shape
  }

  function Encoded(r: Request): Bytes {
    U16s(Words(r)) + r.hidden.data + r.inds.data + r.weights.data
  }

  /** What the format is for: three 3-dimensional arrays. */
  predicate ThreeDimensional(r: Request) {
    |r.hidden.shape| == 3 && |r.inds.shape| == 3 && |r.weights.shape| == 3
  }

  predicate Arrays(r: Request) {
    Sized(r.hidden, F16) && Sized(r.inds, I32) && Sized(r.weights, F32)
  }

  /** A request that can be sent. */
  predicate Sendable(r: Request) {
    ThreeDimensional(r) && Arrays(r) && FitsU16(Words(r))
  }

  /** `raw` starts with this message. */
  ghost predicate Holds(raw: Bytes, r: Request) {
    FitsU16(Words(r)) && Encoded(r) <= raw
  }

  function Arranged(ids: seq<nat>): (r: seq<nat>)
    ensures |r| == |ids|
  {
    var order := ArgSort(Keys(ids));
    seq(|ids|, i requires 0 <= i < |ids| => ids[order[i]])
  }

  ghost predicate Picks(ids: seq<nat>, order: seq<nat>, r: seq<nat>) {
    && |order| == |r| == |ids|
    && forall i :: 0 <= i < |r| ==> order[i] < |ids| && r[i] == ids[order[i]]
  }

  /** The ids in increasing order: a rearrangement that uses every position once. */
  lemma ArrangedSorts(ids: seq<nat>)
    ensures Sorted(Arranged(ids))
    ensures exists order: seq<nat> :: Distinct(order) && Lists(order, |ids|) && Picks(ids, order, Arranged(ids))
  {
    var keys := Keys(ids);
    var order := ArgSort(keys);
    ArgSortSorts(keys);
    forall i, j | 0 <= i < j < |ids|
      ensures ids[order[i]] <= ids[order[j]]
    {
      assert Before(keys, order[i], order[j]);
    }
  }

  /** The 16-bit number whose low byte is at `at`. */
  function WordAt(raw: Bytes, at: nat): nat
    requires at + 2 <= |raw|
  {
    (raw[at] as nat) + 0x100 * (raw[at + 1] as nat)
  }

  ghost predicate WordsAt(raw: Bytes, at: nat, words: seq<nat>) {
    at + 2 * |words| <= |raw| && forall i :: 0 <= i < |words| ==> WordAt(raw, at + 2 * i) == words[i]
  }

  lemma WordsPlaced(raw: Bytes, all: seq<nat>, skip: nat, words: seq<nat>)
    requires FitsU16(all) && U16s(all) <= raw && skip + |words| <= |all| && all[skip..skip + |words|] == words
    ensures WordsAt(raw, 2 * skip, words)
  {
    forall i | 0 <= i < |words|
      ensures WordAt(raw, 2 * skip + 2 * i) == words[i]
    {
      assert words[i] == all[skip + i];
      assert raw[2 * (skip + i)] == U16s(all)[2 * (skip + i)] && raw[2 * (skip + i) + 1] == U16s(all)[2 * (skip + i) + 1];
    }
  }

  /** Where each field of a message is. */
  lemma RequestLayout(r: Request)
    requires ThreeDimensional(r) && FitsU16(Words(r))
    ensures var raw, n := Encoded(r), |r.ids|;
      && WordsAt(raw, 0, [r.layer, n]) && WordsAt(raw, 4, r.ids)
      && WordsAt(raw, 4 + 2 * n, r.hidden.shape) && WordsAt(raw, 10 + 2 * n, r.inds.shape) && WordsAt(raw, 16 + 2 * n, r.weights.shape)
      && raw[22 + 2 * n..] == r.hidden.data + r.inds.data + r.weights.data
  {
    var raw, n, all := Encoded(r), |r.ids|, Words(r);
    assert raw == U16s(all) + (r.hidden.data + r.inds.data + r.weights.data);
    WordsPlaced(raw, all, 0, [r.layer, n]);
    WordsPlaced(raw, all, 2, r.ids);
    WordsPlaced(raw, all, 2 + n, r.hidden.shape);
    WordsPlaced(raw, all, 5 + n, r.inds.shape);
    WordsPlaced(raw, all, 8 + n, r.weights.shape);
  }

  /** `pack_request`: nothing when a header field does not fit 16 bits. */
  function PackRequest(layer: nat, ids: seq<nat>, hidden: Tensor, inds: Tensor, weights: Tensor): Option<Bytes> {
    var r := Request(layer, Arranged(ids), hidden, inds, weights);
    if FitsU16(Words(r)) then Some(Encoded(r)) else None
  }

  /** A slice as Python takes it: cut off at the end of the message. */
  function Slice(raw: Bytes, off: nat, n: nat): Bytes {
    var from, to := if off < |raw| then off else |raw|, if off + n < |raw| then off + n else |raw|;
    raw[from..to]
  }

  /** The number of header bytes the message itself announces. */
  function HeaderSize(raw: Bytes): nat
    requires |raw| >= 4
  {
    4 + 2 * ReadU16s(raw[..4])[1] + 18
  }

  predicate Complete(raw: Bytes) {
    |raw| >= 4 && |raw| >= HeaderSize(raw)
  }

  /** Reads the words at `off`: an error only when the message ends in the middle of one. */
  method ReadWords(raw: Bytes, off: nat, n: nat) returns (words: Option<seq<nat>>)
    ensures off + n <= |raw| && n % 2 == 0 ==> words == Some(ReadU16s(raw[off..off + n]))
  {
    var bytes := Slice(raw, off, n);
    if |bytes| % 2 != 0 {
      return None;
    }
    return Some(ReadU16s(bytes));
  }

  /** A header without its arrays' contents, from all its words. */
  function FromWords(w: seq<nat>): Request
    requires |w| >= 11 && |w| == w[1] + 11
  {
    var n := w[1];
    Request(w[0], w[2..2 + n], Tensor(w[2 + n..5 + n], []), Tensor(w[5 + n..8 + n], []), Tensor(w[8 + n..], []))
  }

  function Contentless(r: Request): Request {
    r.(hidden := r.hidden.(data := []), inds := r.inds.(data := []), weights := r.weights.(data := []))
  }

  /** The words of a header determine it, and any words are some header's. */
  lemma HeaderFromWords(r: Request)
    requires ThreeDimensional(r)
    ensures |Words(r)| >= 11 && |Words(r)| == Words(r)[1] + 11 && FromWords(Words(r)) == Contentless(r)
  {
  }

  lemma WordsOfHeader(w: seq<nat>)
    requires |w| >= 11 && |w| == w[1] + 11
    ensures ThreeDimensional(FromWords(w)) && Words(FromWords(w)) == w
  {
    var n := w[1];
    assert w == w[..2] + w[2..2 + n] + w[2 + n..5 + n] + w[5 + n..8 + n] + w[8 + n..];
  }

  /** The three shapes, one after another. */
  method ReadShapes(raw: Bytes, from: nat) returns (shapes: Option<seq<seq<nat>>>)
    ensures shapes.Some? ==> |shapes.value| == 3
    ensures from + 18 <= |raw| ==> shapes == Some([ReadU16s(raw[from..from + 6]), ReadU16s(raw[from + 6..from + 12]),
                                                   ReadU16s(raw[from + 12..from + 18])])
  {
    var off, found := from, [];
    for k := 0 to 3
      invariant |found| == k && off == from + 6 * k
      invariant from + 18 <= |raw| ==> forall j :: 0 <= j < k ==> found[j] == ReadU16s(raw[from + 6 * j..from + 6 * j + 6])
    {
      var shape := ReadWords(raw, off, 6);
      if shape.None? {
        return None;
      }
      found := found + [shape.value];
      off := off + 6;
    }
    assert found == [found[0], found[1], found[2]];
    return Some(found);
  }

  ghost predicate HeaderIs(raw: Bytes, h: Request)
    requires Complete(raw)
  {
    var w := ReadU16s(raw[..HeaderSize(raw)]);
    |w| == w[1] + 11 && h == FromWords(w)
  }

  lemma CountWord(raw: Bytes)
    requires Complete(raw)
    ensures var w := ReadU16s(raw[..HeaderSize(raw)]); w[..2] == ReadU16s(raw[..4]) && |w| == w[1] + 11
  {
    ReadPart(raw, 0, 4, HeaderSize(raw), 0, 2);
  }

  /** Walks over the header fields, moving the offset past each. */
  method UnpackHeader(raw: Bytes) returns (h: Option<Request>, off: nat)
    ensures Complete(raw) ==> h.Some? && HeaderIs(raw, h.value) && off == HeaderSize(raw)
  {
    off := 0;
    if |raw| < 4 {
      return None, off;
    }
    var fixed := ReadU16s(raw[..4]);
    var n := fixed[1];
    off := 4;
    var ids := ReadWords(raw, off, 2 * n);
    off := off + 2 * n;
    var shapes := ReadShapes(raw, off);
    off := off + 18;
    if ids.None? || shapes.None? {
      return None, off;
    }
    if Complete(raw) {
      FieldsMakeHeader(raw, n);
    }
    h := Some(Request(fixed[0], ids.value, Tensor(shapes.value[0], []), Tensor(shapes.value[1], []), Tensor(shapes.value[2], [])));
  }

  lemma FieldsMakeHeader(raw: Bytes, n: nat)
    requires Complete(raw) && n == ReadU16s(raw[..4])[1]
    ensures HeaderIs(raw, Request(ReadU16s(raw[..4])[0], ReadU16s(raw[4..4 + 2 * n]),
      Tensor(ReadU16s(raw[4 + 2 * n..10 + 2 * n]), []), Tensor(ReadU16s(raw[10 + 2 * n..16 + 2 * n]), []),
      Tensor(ReadU16s(raw[16 + 2 * n..22 + 2 * n]), [])))
  {
    CountWord(raw);
    var end := HeaderSize(raw);
    ReadPart(raw, 4, 4 + 2 * n, end, 2, 2 + n);
    ReadPart(raw, 4 + 2 * n, 10 + 2 * n, end, 2 + n, 5 + n);
    ReadPart(raw, 10 + 2 * n, 16 + 2 * n, end, 5 + n, 8 + n);
    ReadPart(raw, 16 + 2 * n, 22 + 2 * n, end, 8 + n, 11 + n);
  }

  /** The contents a message has for an array at `off`: possibly too few. */
  function ContentsAt(raw: Bytes, off: nat, shape: seq<nat>, width: nat): Bytes {
    Slice(raw, off, Product(shape) * width)
  }

  /** A header with the contents that follow at `off`, unless the message ends too early. */
  function WithContents(raw: Bytes, h: Request, off: nat): Option<Request> {
    var hidden := Tensor(h.hidden.shape, ContentsAt(raw, off, h.hidden.shape, F16));
    var off2 := off + Product(h.hidden.shape) * F16;
    var inds := Tensor(h.inds.shape, ContentsAt(raw, off2, h.inds.shape, I32));
    var off3 := off2 + Product(h.inds.shape) * I32;
    var weights := Tensor(h.weights.shape, ContentsAt(raw, off3, h.weights.shape, F32));
    var r := Request(h.layer, h.ids, hidden, inds, weights);
    if Arrays(r) then Some(r) else None
  }

  /** Bytes that lie one after another at the front of a message. */
  lemma Pieces(raw: Bytes, a: Bytes, b: Bytes, c: Bytes, d: Bytes)
    ensures a + b + c + d <= raw <==>
      a <= raw && Slice(raw, |a|, |b|) == b && Slice(raw, |a| + |b|, |c|) == c && Slice(raw, |a| + |b| + |c|, |d|) == d
  {
    var all := a + b + c + d;
    if all <= raw {
      assert raw == all + raw[|all|..];
    } else if a <= raw && Slice(raw, |a|, |b|) == b && Slice(raw, |a| + |b|, |c|) == c && Slice(raw, |a| + |b| + |c|, |d|) == d {
      Extends(raw, a, b);
      Extends(raw, a + b, c);
      Extends(raw, a + b + c, d);
    }
  }

  lemma Extends(raw: Bytes, a: Bytes, b: Bytes)
    requires a <= raw && Slice(raw, |a|, |b|) == b
    ensures a + b <= raw
  {
  }

  /** The arrays' contents lie one after another from `off`. */
  predicate ContentsLie(raw: Bytes, off: nat, r: Request) {
    && Slice(raw, off, |r.hidden.data|) == r.hidden.data
    && Slice(raw, off + |r.hidden.data|, |r.inds.data|) == r.inds.data
    && Slice(raw, off + |r.hidden.data| + |r.inds.data|, |r.weights.data|) == r.weights.data
  }

  lemma HeldAsPieces(raw: Bytes, r: Request)
    ensures Holds(raw, r) <==> FitsU16(Words(r)) && U16s(Words(r)) <= raw && ContentsLie(raw, 2 * |Words(r)|, r)
  {
    Pieces(raw, U16s(Words(r)), r.hidden.data, r.inds.data, r.weights.data);
  }

  lemma ContentsTaken(raw: Bytes, h: Request, off: nat, r: Request)
    requires Contentless(h) == Contentless(r)
    ensures WithContents(raw, h, off) == Some(r) <==> Arrays(r) && ContentsLie(raw, off, r)
  {
  }

  /** The header a complete message decodes to is the header it starts with. */
  lemma HeaderIsHeld(raw: Bytes, h: Request)
    requires Complete(raw) && HeaderIs(raw, h)
    ensures ThreeDimensional(h) && FitsU16(Words(h)) && U16s(Words(h)) == raw[..HeaderSize(raw)]
  {
    WordsOfHeader(ReadU16s(raw[..HeaderSize(raw)]));
    BytesRoundTrip(raw[..HeaderSize(raw)]);
  }

  /** What a complete message decodes to is what it holds. */
  lemma DecodedIsHeld(raw: Bytes, h: Request)
    requires Complete(raw) && HeaderIs(raw, h)
    ensures var r := WithContents(raw, h, HeaderSize(raw)); r.Some? ==> Sendable(r.value) && Holds(raw, r.value)
  {
    HeaderIsHeld(raw, h);
    var r := WithContents(raw, h, HeaderSize(raw));
    if r.Some? {
      assert Words(r.value) == Words(h);
      ContentsTaken(raw, h, HeaderSize(raw), r.value);
      HeldAsPieces(raw, r.value);
    }
  }

  /** A message that starts with a header is complete and decodes to that header. */
  lemma HeldHeader(raw: Bytes, h: Request)
    requires ThreeDimensional(h) && FitsU16(Words(h)) && U16s(Words(h)) <= raw
    ensures Complete(raw) && HeaderSize(raw) == 2 * |Words(h)| && HeaderIs(raw, Contentless(h))
  {
    var w := Words(h);
    HeaderFromWords(h);
    WordsRoundTrip(w);
    assert raw[..2 * |w|] == U16s(w);
    ReadPart(raw, 0, 4, 2 * |w|, 0, 2);
  }

  /** A message that holds a request is complete and has that request's header and contents. */
  lemma HeldIsDecoded(raw: Bytes, r: Request)
    requires Sendable(r) && Holds(raw, r)
    ensures Complete(raw) && HeaderIs(raw, Contentless(r))
    ensures WithContents(raw, Contentless(r), HeaderSize(raw)) == Some(r)
  {
    HeldAsPieces(raw, r);
    HeldHeader(raw, r);
    ContentsTaken(raw, Contentless(r), HeaderSize(raw), r);
  }

  /** A message holds at most one request. */
  lemma MessageIsUnambiguous(raw: Bytes, a: Request, b: Request)
    requires Sendable(a) && Holds(raw, a) && Sendable(b) && Holds(raw, b)
    ensures a == b
  {
    HeldIsDecoded(raw, a);
    HeldIsDecoded(raw, b);
  }

  /** `unpack_request`: from a complete message, exactly the request it holds, or an error
      when it holds none. */
  method UnpackRequest(raw: Bytes) returns (r: Option<Request>)
    ensures r.Some? && Complete(raw) ==> Sendable(r.value) && Holds(raw, r.value)
    ensures forall req :: Sendable(req) && Holds(raw, req) ==> r == Some(req)
  {
    forall req | Sendable(req) && Holds(raw, req)
      ensures Complete(raw) && HeaderIs(raw, Contentless(req))
      ensures WithContents(raw, Contentless(req), HeaderSize(raw)) == Some(req)
    {
      HeldIsDecoded(raw, req);
    }
    var header, off := UnpackHeader(raw);
    if header.None? {
      return None;
    }
    var h := header.value;
    if Complete(raw) {
      DecodedIsHeld(raw, h);
    }
    r := UnpackArrays(raw, h, off);
  }

  /** Reads the three arrays in turn, moving the offset past each. */
  method UnpackArrays(raw: Bytes, h: Request, from: nat) returns (r: Option<Request>)
    ensures r == WithContents(raw, h, from)
  {
    var off := from;
    var n := Product(h.hidden.shape) * F16;
    var hidden := Slice(raw, off, n);
    if |hidden| != n {
      return None;
    }
    off := off + n;
    n := Product(h.inds.shape) * I32;
    var inds := Slice(raw, off, n);
    if |inds| != n {
      return None;
    }
    off := off + n;
    n := Product(h.weights.shape) * F32;
    var weights := Slice(raw, off, n);
    if |weights| != n {
      return None;
    }
    return Some(Request(h.layer, h.ids, Tensor(h.hidden.shape, hidden), Tensor(h.inds.shape, inds), Tensor(h.weights.shape, weights)));
  }

  lemma ArrangedFits(ids: seq<nat>)
    ensures FitsU16(Arranged(ids)) <==> FitsU16(ids)
  {
    var order := ArgSort(Keys(ids));
    ArgSortSorts(Keys(ids));
    if FitsU16(Arranged(ids)) {
      forall i | 0 <= i < |ids|
        ensures ids[i] < 0x1_0000
      {
        assert i in order;
        var j :| 0 <= j < |order| && order[j] == i;
        assert Arranged(ids)[j] == ids[i];
      }
    }
  }

  lemma FitsConcat(a: seq<nat>, b: seq<nat>)
    ensures FitsU16(a + b) <==> FitsU16(a) && FitsU16(b)
  {
    assert forall i :: 0 <= i < |a| ==> (a + b)[i] == a[i];
    assert forall i :: 0 <= i < |b| ==> (a + b)[|a| + i] == b[i];
  }

  /** Every header field fits 16 bits. */
  predicate Fits(layer: nat, ids: seq<nat>, hidden: Tensor, inds: Tensor, weights: Tensor) {
    FitsU16([layer, |ids|]) && FitsU16(ids) && FitsU16(hidden.shape) && FitsU16(inds.shape) && FitsU16(weights.shape)
  }

  lemma HeaderFits(layer: nat, ids: seq<nat>, hidden: Tensor, inds: Tensor, weights: Tensor)
    ensures FitsU16(Words(Request(layer, ids, hidden, inds, weights))) <==> Fits(layer, ids, hidden, inds, weights)
  {
    FitsConcat([layer, |ids|], ids);
    FitsConcat([layer, |ids|] + ids, hidden.shape);
    FitsConcat([layer, |ids|] + ids + hidden.shape, inds.shape);
    FitsConcat([layer, |ids|] + ids + hidden.shape + inds.shape, weights.shape);
  }

  /** Packing succeeds exactly when every field fits, and decoding what was packed gives the
      request back with its ids sorted. */
  lemma RequestRoundTrip(layer: nat, ids: seq<nat>, hidden: Tensor, inds: Tensor, weights: Tensor)
    requires ThreeDimensional(Request(layer, ids, hidden, inds, weights))
    requires Arrays(Request(layer, ids, hidden, inds, weights))
    ensures var sent := Request(layer, Arranged(ids), hidden, inds, weights);
      match PackRequest(layer, ids, hidden, inds, weights)
      case Some(raw) => Fits(layer, ids, hidden, inds, weights) && Sendable(sent) && Holds(raw, sent)
                        && Complete(raw) && WithContents(raw, Contentless(sent), HeaderSize(raw)) == Some(sent)
      case None => !Fits(layer, ids, hidden, inds, weights)
  {
    var sent := Request(layer, Arranged(ids), hidden, inds, weights);
    ArrangedFits(ids);
    HeaderFits(layer, Arranged(ids), hidden, inds, weights);
    if FitsU16(Words(sent)) {
      HeldIsDecoded(Encoded(sent), sent);
    }
  }

  datatype Response = Response(computed: nat, result: Tensor)

  function ResponseWords(r: Response): seq<nat> {
    [r.computed, |r.result.shape|] + r.result.shape
  }

  function EncodedResponse(r: Response): Bytes {
    U16s(ResponseWords(r)) + r.result.data
  }

  predicate SendableResponse(r: Response) {
    FitsU16(ResponseWords(r)) && Sized(r.result, F16)
  }

  /** `pack_response`, likewise. */
  function PackResponse(r: Response): Option<Bytes> {
    if FitsU16(ResponseWords(r)) then Some(EncodedResponse(r)) else None
  }

  predicate CompleteResponse(raw: Bytes) {
    |raw| >= 4 && |raw| >= 4 + 2 * ReadU16s(raw[..4])[1]
  }

  /** `unpack_response`: everything after the shape is the result, so a complete message
      decodes exactly when it is the encoding of some response, and to that response. */
  method UnpackResponse(raw: Bytes) returns (r: Option<Response>)
    ensures r.Some? && CompleteResponse(raw) ==> SendableResponse(r.value) && EncodedResponse(r.value) == raw
    ensures forall resp :: SendableResponse(resp) && EncodedResponse(resp) == raw ==> r == Some(resp)
  {
    r := ReadResponse(raw);
    ResponseDecides(raw, r);
  }

  /** Reads the fields in turn, moving the offset past each. */
  method ReadResponse(raw: Bytes) returns (r: Option<Response>)
    ensures CompleteResponse(raw) ==> r == WholeResponse(raw)
  {
    if |raw| < 4 {
      return None;
    }
    var fixed := ReadU16s(raw[..4]);
    var off := 4;
    var shape := ReadWords(raw, off, 2 * fixed[1]);
    if shape.None? {
      return None;
    }
    off := off + 2 * fixed[1];
    var data := raw[if off < |raw| then off else |raw|..];
    if |data| != Product(shape.value) * F16 {
      return None;
    }
    return Some(Response(fixed[0], Tensor(shape.value, data)));
  }

  /** The response of a complete message, unless its length is wrong. */
  function WholeResponse(raw: Bytes): Option<Response>
    requires CompleteResponse(raw)
  {
    var r := ResponseAt(raw, ReadU16s(raw[..4]));
    if Sized(r.result, F16) then Some(r) else None
  }

  lemma ResponseDecides(raw: Bytes, r: Option<Response>)
    requires CompleteResponse(raw) ==> r == WholeResponse(raw)
    ensures r.Some? && CompleteResponse(raw) ==> SendableResponse(r.value) && EncodedResponse(r.value) == raw
    ensures forall resp :: SendableResponse(resp) && EncodedResponse(resp) == raw ==> r == Some(resp)
  {
    OnlyResponse(raw);
    if CompleteResponse(raw) {
      DecodedResponse(raw);
    }
  }

  /** The response a complete message decodes to, if its length is right. */
  function ResponseAt(raw: Bytes, fixed: seq<nat>): Response
    requires |fixed| == 2 && 4 + 2 * fixed[1] <= |raw|
  {
    Response(fixed[0], Tensor(ReadU16s(raw[4..4 + 2 * fixed[1]]), raw[4 + 2 * fixed[1]..]))
  }

  lemma DecodedResponse(raw: Bytes)
    requires CompleteResponse(raw)
    ensures var r := ResponseAt(raw, ReadU16s(raw[..4])); FitsU16(ResponseWords(r)) && EncodedResponse(r) == raw
  {
    var fixed := ReadU16s(raw[..4]);
    var r, m := ResponseAt(raw, fixed), 2 + fixed[1];
    ReadPart(raw, 0, 4, 2 * m, 0, 2);
    ReadPart(raw, 4, 2 * m, 2 * m, 2, m);
    assert ResponseWords(r) == ReadU16s(raw[..2 * m]);
    BytesRoundTrip(raw[..2 * m]);
  }

  lemma OnlyResponse(raw: Bytes)
    ensures forall resp :: SendableResponse(resp) && EncodedResponse(resp) == raw ==>
      CompleteResponse(raw) && ResponseAt(raw, ReadU16s(raw[..4])) == resp
  {
    forall resp | SendableResponse(resp) && EncodedResponse(resp) == raw
      ensures CompleteResponse(raw) && ResponseAt(raw, ReadU16s(raw[..4])) == resp
    {
      ResponseRoundTrip(resp);
    }
  }

  lemma ResponseRoundTrip(r: Response)
    requires SendableResponse(r)
    ensures var raw := EncodedResponse(r);
      PackResponse(r) == Some(raw) && CompleteResponse(raw) && ResponseAt(raw, ReadU16s(raw[..4])) == r
  {
    var raw, w := EncodedResponse(r), ResponseWords(r);
    WordsRoundTrip(w);
    assert raw[..2 * |w|] == U16s(w);
    ReadPart(raw, 0, 4, 2 * |w|, 0, 2);
    ReadPart(raw, 4, 2 * |w|, 2 * |w|, 2, |w|);
  }

  /** How long a message is: 22 bytes and two an id, then 16-bit floats, 32-bit indices and 32-bit
      weights, one for every combination of positions. */
  lemma RequestSize(r: Request)
    requires ThreeDimensional(r) && Arrays(r)
    ensures var h, i, w := r.hidden.shape, r.inds.shape, r.weights.shape;
      |Encoded(r)| == 22 + 2 * |r.ids| + h[0] * h[1] * h[2] * 2 + i[0] * i[1] * i[2] * 4 + w[0] * w[1] * w[2] * 4
  {
    ProductOfThree(r.hidden.shape);
    ProductOfThree(r.inds.shape);
    ProductOfThree(r.weights.shape);
  }

  lemma ProductOfThree(shape: seq<nat>)
    requires |shape| == 3
    ensures Product(shape) == shape[0] * shape[1] * shape[2]
  {
    var a, b, c := shape[0], shape[1], shape[2];
    assert shape[1..][1..] == [c] && [c][1..] == [];
    assert Product([c]) == c;
    assert shape[1..][0] == b && Product(shape[1..]) == b * c;
    assert a * (b * c) == a * b * c;
  }

  /** An array's elements: those of its parts multiply, and one dimension counts itself. */
  lemma {:induction false} ProductOfParts(a: seq<nat>, b: seq<nat>, n: nat)
    ensures Product(a + b) == Product(a) * Product(b) && Product([n]) == n && Product([]) == 1
  {
    assert [n][1..] == [];
    if a == [] {
      assert a + b == b;
    } else {
      assert (a + b)[1..] == a[1..] + b;
      ProductOfParts(a[1..], b, n);
      assert a[0] * (Product(a[1..]) * Product(b)) == a[0] * Product(a[1..]) * Product(b);
    }
  }

  /** A response is four bytes, two a dimension, and 16-bit floats to its end. */
  lemma ResponseSize(r: Response)
    requires SendableResponse(r)
    ensures |EncodedResponse(r)| == 4 + 2 * |r.result.shape| + 2 * Product(r.result.shape)
  {
  }

  lemma ResponseLayout(r: Response)
    requires FitsU16(ResponseWords(r))
    ensures var raw, n := EncodedResponse(r), |r.result.shape|;
      WordsAt(raw, 0, [r.computed, n]) && WordsAt(raw, 4, r.result.shape) && raw[4 + 2 * n..] == r.result.data
  {
    var raw, n, all := EncodedResponse(r), |r.result.shape|, ResponseWords(r);
    WordsPlaced(raw, all, 0, [r.computed, n]);
    WordsPlaced(raw, all, 2, r.result.shape);
  }
}
