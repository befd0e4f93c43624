/**
 Reading single rows of a sharded n-gram table, from disk or by coalesced ranges, and
 the row cache in front of both.
 */
module NGramRows {
  import opened Collections
  import opened Recency
  import opened Sorting
  import opened Arithmetic

  type Bytes = seq<bv8>
  datatype RowKey = RowKey(shard: nat, row: nat)

  /** One tensor of one shard: row r occupies `rowBytes` bytes from `base + r * rowBytes`. */
  datatype File = File(bytes: Bytes, base: nat, rowBytes: nat) {

    function Start(r: nat): nat {
      base + Mul(r, rowBytes)
    }

    predicate Has(r: nat) {
      Start(r + 1) <= |bytes|
    }

    function Row(r: nat): Bytes
      requires Has(r)
    {
      bytes[Start(r)..Start(r + 1)]
    }

    /** All the rows, or nothing when one of them is not in the file. */
    function RowsOf(ids: seq<nat>): Option<seq<Bytes>> {
      if forall i :: 0 <= i < |ids| ==> Has(ids[i]) then
        Some(seq(|ids|, i requires 0 <= i < |ids| && Has(ids[i]) => Row(ids[i])))
      else None
    }
  }

  /** The `rowBytes` bytes from `base + r * rowBytes` on are in the file. */
  predicate HoldsRow(f: File, r: nat) {
    f.base + r * f.rowBytes + f.rowBytes <= |f.bytes|
  }

  function RowBytes(f: File, r: nat): (bytes: Bytes)
    requires HoldsRow(f, r)
    ensures |bytes| == f.rowBytes
  {
    MulIsProduct(r, f.rowBytes);
    var at := f.base + r * f.rowBytes;
    f.bytes[at..at + f.rowBytes]
  }

  /** That is what having a row and reading it mean. */
  lemma RowIsSlice(f: File, r: nat)
    ensures f.Has(r) <==> HoldsRow(f, r)
    ensures f.Has(r) ==> f.Row(r) == RowBytes(f, r)
  {
    MulIsProduct(r, f.rowBytes);
    assert Mul(r + 1, f.rowBytes) == Mul(r, f.rowBytes) + f.rowBytes;
  }

  /** The rows, byte for byte, or nothing exactly when the file ends before one of them does. */
  ghost predicate ReadsRows(f: File, ids: seq<nat>, rows: Option<seq<Bytes>>) {
    && (rows.Some? <==> forall i :: 0 <= i < |ids| ==> HoldsRow(f, ids[i]))
    && (rows.Some? ==> |rows.value| == |ids|)
    && (rows.Some? ==> forall i :: 0 <= i < |ids| ==> rows.value[i] == RowBytes(f, ids[i]))
  }

  lemma RowsOfReads(f: File, ids: seq<nat>)
    ensures ReadsRows(f, ids, f.RowsOf(ids))
  {
    forall i | 0 <= i < |ids|
      ensures f.Has(ids[i]) <==> HoldsRow(f, ids[i])
      ensures f.Has(ids[i]) ==> f.Row(ids[i]) == RowBytes(f, ids[i])
    {
      RowIsSlice(f, ids[i]);
    }
  }

  /** The rows read so far are the first ones asked for. */
  ghost predicate ReadSoFar(f: File, ids: seq<nat>, out: seq<Bytes>) {
    |out| <= |ids| && forall j :: 0 <= j < |out| ==> f.Has(ids[j]) && out[j] == f.Row(ids[j])
  }

  lemma ReadOneMore(f: File, ids: seq<nat>, out: seq<Bytes>)
    requires ReadSoFar(f, ids, out) && |out| < |ids| && f.Has(ids[|out|])
    ensures ReadSoFar(f, ids, out + [f.Row(ids[|out|])])
  {
  }

  lemma ReadAll(f: File, ids: seq<nat>, out: seq<Bytes>)
    requires ReadSoFar(f, ids, out) && |out| == |ids|
    ensures f.RowsOf(ids) == Some(out)
  {
    assert f.RowsOf(ids).value == out;
  }

  /** One positional read per row; a short read is an error. */
  method DiskReadRows(f: File, ids: seq<nat>) returns (rows: Option<seq<Bytes>>)
    ensures rows == f.RowsOf(ids) && ReadsRows(f, ids, rows)
  {
    RowsOfReads(f, ids);
    var out: seq<Bytes> := [];
    var i := 0;
    while i < |ids|
      invariant 0 <= i <= |ids| && |out| == i
      invariant ReadSoFar(f, ids, out)
    {
      if !f.Has(ids[i]) {
        return None;
      }
      ReadOneMore(f, ids, out);
      out := out + [f.Row(ids[i])];
      i := i + 1;
    }
    rows := Some(out);
    ReadAll(f, ids, out);
  }

  /** Ranges of rows, first and last. */
  datatype Range = Range(first: nat, last: nat)

  /** `(b - a - 1) * rowBytes`, the bytes between the end of row `a` and the start of `b`. */
  function Between(a: nat, b: nat, rowBytes: nat): (d: int)
    ensures b <= a + 1 ==> d <= 0
  {
    if b > a then Mul(b - a - 1, rowBytes) else 0 - Mul(a - b + 1, rowBytes)
  }

  lemma BetweenIsProduct(a: nat, b: nat, rowBytes: nat)
    ensures Between(a, b, rowBytes) == (b - a - 1) * rowBytes
  {
    if b > a {
      MulIsProduct(b - a - 1, rowBytes);
    } else {
      MulIsProduct(a - b + 1, rowBytes);
    }
  }

  /** Sorted, disjoint, and further apart than the coalescing distance. */
  ghost predicate Apart(ranges: seq<Range>, rowBytes: nat, gap: nat) {
    && (forall k :: 0 <= k < |ranges| ==> ranges[k].first <= ranges[k].last)
    && (forall j, k :: 0 <= j < k < |ranges| ==>
          ranges[j].last < ranges[k].first && Between(ranges[j].last, ranges[k].first, rowBytes) > gap)
  }

  ghost predicate Holds(ranges: seq<Range>, k: nat, r: nat) {
    k < |ranges| && ranges[k].first <= r <= ranges[k].last
  }

  ghost predicate InRange(ranges: seq<Range>, r: nat) {
    exists k: nat :: Holds(ranges, k, r)
  }

  ghost predicate EndsAtRows(range: Range, rows: seq<nat>) {
    range.first in rows && range.last in rows
  }

  /** Every range starts and ends at a row that was asked for. */
  ghost predicate AtRows(ranges: seq<Range>, rows: seq<nat>) {
    forall k :: 0 <= k < |ranges| ==> EndsAtRows(ranges[k], rows)
  }

  ghost predicate Covered(ranges: seq<Range>, rows: seq<nat>, j: nat) {
    j < |rows| && InRange(ranges, rows[j])
  }

  /** The first `i` rows are in some range, the last of them at the very end. */
  ghost predicate CoversFirst(ranges: seq<Range>, rows: seq<nat>, i: nat)
    requires i <= |rows|
  {
    && (forall j :: 0 <= j < i ==> Covered(ranges, rows, j))
    && (if i == 0 then ranges == [] else ranges != [] && ranges[|ranges| - 1].last == rows[i - 1])
  }

  /** Extend the last range to the next row, or open a new one. */
  function AddRow(ranges: seq<Range>, r: nat, rowBytes: nat, gap: nat): (ranges': seq<Range>) {
    var n := |ranges|;
    if n > 0 && Between(ranges[n - 1].last, r, rowBytes) <= gap then
      var last := ranges[n - 1];
      ranges[n - 1 := Range(last.first, if last.last > r then last.last else r)]
    else ranges + [Range(r, r)]
  }

  lemma AddRowKeepsApart(ranges: seq<Range>, r: nat, rowBytes: nat, gap: nat)
    requires Apart(ranges, rowBytes, gap) && (ranges != [] ==> ranges[|ranges| - 1].last <= r)
    ensures Apart(AddRow(ranges, r, rowBytes, gap), rowBytes, gap)
  {
    var n := |ranges|;
    if n > 0 && Between(ranges[n - 1].last, r, rowBytes) > gap {
      forall j | 0 <= j < n
        ensures ranges[j].last < r && Between(ranges[j].last, r, rowBytes) > gap
      {
        SlotsMonotone(r - ranges[n - 1].last - 1, r - ranges[j].last - 1, rowBytes);
      }
    }
  }

  lemma AddRowCovers(ranges: seq<Range>, rows: seq<nat>, i: nat, rowBytes: nat, gap: nat)
    requires Sorted(rows) && i < |rows| && CoversFirst(ranges, rows, i) && Apart(ranges, rowBytes, gap)
    ensures CoversFirst(AddRow(ranges, rows[i], rowBytes, gap), rows, i + 1)
  {
    var ranges' := AddRow(ranges, rows[i], rowBytes, gap);
    assert i > 0 ==> rows[i - 1] <= rows[i];
    forall j | 0 <= j < i + 1
      ensures Covered(ranges', rows, j)
    {
      if j == i {
        var k := |ranges'| - 1;
        assert Holds(ranges', k, rows[j]);
      } else {
        assert Covered(ranges, rows, j);
        var k: nat :| Holds(ranges, k, rows[j]);
        assert Holds(ranges', k, rows[j]);
      }
    }
  }

  lemma AddRowAtRows(ranges: seq<Range>, rows: seq<nat>, i: nat, rowBytes: nat, gap: nat)
    requires i < |rows| && AtRows(ranges, rows)
    ensures AtRows(AddRow(ranges, rows[i], rowBytes, gap), rows)
  {
    assert rows[i] in rows;
  }

  function RangesOf(rows: seq<nat>, i: nat, rowBytes: nat, gap: nat): seq<Range>
    requires i <= |rows|
  {
    if i == 0 then [] else AddRow(RangesOf(rows, i - 1, rowBytes, gap), rows[i - 1], rowBytes, gap)
  }

  lemma {:induction false} RangesCover(rows: seq<nat>, i: nat, rowBytes: nat, gap: nat)
    requires i <= |rows| && Sorted(rows)
    ensures var ranges := RangesOf(rows, i, rowBytes, gap);
      Apart(ranges, rowBytes, gap) && CoversFirst(ranges, rows, i)
  {
    if i > 0 {
      RangesCover(rows, i - 1, rowBytes, gap);
      var before := RangesOf(rows, i - 1, rowBytes, gap);
      assert i > 1 ==> rows[i - 2] <= rows[i - 1];
      AddRowKeepsApart(before, rows[i - 1], rowBytes, gap);
      AddRowCovers(before, rows, i - 1, rowBytes, gap);
    }
  }

  lemma {:induction false} RangesStartAtRows(rows: seq<nat>, i: nat, rowBytes: nat, gap: nat)
    requires i <= |rows|
    ensures AtRows(RangesOf(rows, i, rowBytes, gap), rows)
  {
    if i > 0 {
      RangesStartAtRows(rows, i - 1, rowBytes, gap);
      AddRowAtRows(RangesOf(rows, i - 1, rowBytes, gap), rows, i - 1, rowBytes, gap);
    }
  }

  /** Merge neighbouring rows into ranges. */
  method Coalesce(rows: seq<nat>, rowBytes: nat, gap: nat) returns (ranges: seq<Range>)
    ensures ranges == RangesOf(rows, |rows|, rowBytes, gap)
  {
    ranges := [];
    var i := 0;
    while i < |rows|
      invariant 0 <= i <= |rows| && ranges == RangesOf(rows, i, rowBytes, gap)
    {
      ranges := AddRow(ranges, rows[i], rowBytes, gap);
      i := i + 1;
    }
  }

  /** Sorted disjoint ranges that hold every row, at most one per distinct row. */
  lemma CoalescedRanges(ranges: seq<Range>, rows: seq<nat>, rowBytes: nat, gap: nat)
    requires Sorted(rows) && ranges == RangesOf(rows, |rows|, rowBytes, gap)
    ensures Apart(ranges, rowBytes, gap) && AtRows(ranges, rows) && |ranges| <= |Unique(rows)|
    ensures forall r :: r in rows ==> InRange(ranges, r)
  {
    RangesCover(rows, |rows|, rowBytes, gap);
    RangesStartAtRows(rows, |rows|, rowBytes, gap);
    AtMostOnePerRow(ranges, rowBytes, gap, rows);
    forall r | r in rows
      ensures InRange(ranges, r)
    {
      var j :| 0 <= j < |rows| && rows[j] == r;
      assert Covered(ranges, rows, j);
    }
  }

  lemma {:induction false} RangesAreFew(ranges: seq<Range>, rowBytes: nat, gap: nat, uniq: seq<nat>, n: nat)
    requires Apart(ranges, rowBytes, gap) && n <= |ranges|
    requires forall k :: 0 <= k < n ==> ranges[k].first in uniq
    requires Increasing(uniq)
    ensures n <= |uniq|
    decreases n
  {
    if n > 0 {
      var x := ranges[n - 1].first;
      var i := IndexIn(uniq, x);
      forall k | 0 <= k < n - 1
        ensures ranges[k].first in uniq[..i]
      {
        var j :| 0 <= j < |uniq| && uniq[j] == ranges[k].first;
        assert j < i && uniq[..i][j] == ranges[k].first;
      }
      RangesAreFew(ranges, rowBytes, gap, uniq[..i], n - 1);
    }
  }

  lemma AtMostOnePerRow(ranges: seq<Range>, rowBytes: nat, gap: nat, rows: seq<nat>)
    requires Apart(ranges, rowBytes, gap) && AtRows(ranges, rows)
    ensures |ranges| <= |Unique(rows)|
  {
    RangesAreFew(ranges, rowBytes, gap, Unique(rows), |ranges|);
  }

  /** `max(k for k in starts if k <= r)`, as the index of its range. */
  function GreatestStart(ranges: seq<Range>, r: nat): (k: nat)
    requires exists j :: 0 <= j < |ranges| && ranges[j].first <= r
    ensures k < |ranges| && ranges[k].first <= r
    ensures forall j :: 0 <= j < |ranges| && ranges[j].first <= r ==> ranges[j].first <= ranges[k].first
  {
    var n := |ranges| - 1;
    if ranges[n].first <= r then
      if (exists j :: 0 <= j < n && ranges[j].first <= r) then
        assert forall j :: 0 <= j < n ==> ranges[..n][j] == ranges[j];
        var j :| 0 <= j < n && ranges[j].first <= r;
        assert ranges[..n][j].first <= r;
        var k := GreatestStart(ranges[..n], r);
        if ranges[k].first > ranges[n].first then k else n
      else n
    else
      var j :| 0 <= j < |ranges| && ranges[j].first <= r;
      assert ranges[..n][j].first <= r;
      assert forall j :: 0 <= j < n ==> ranges[..n][j] == ranges[j];
      GreatestStart(ranges[..n], r)
  }

  /** The greatest start not after a covered row always belongs to the range that
      contains it. */
  lemma GreatestStartContains(ranges: seq<Range>, rowBytes: nat, gap: nat, r: nat)
    requires Apart(ranges, rowBytes, gap) && InRange(ranges, r)
    ensures (exists j :: 0 <= j < |ranges| && ranges[j].first <= r)
    ensures var k := GreatestStart(ranges, r); ranges[k].first <= r <= ranges[k].last
  {
    var j: nat :| Holds(ranges, j, r);
    assert ranges[j].first <= r;
    var k := GreatestStart(ranges, r);
  }

  /** A row cut out of the range that holds it is the row. */
  lemma RowInRange(f: File, a: nat, b: nat, r: nat)
    requires a <= r <= b && f.Has(b)
    ensures f.Has(r) && f.Start(a) <= f.Start(b + 1) <= |f.bytes|
    ensures var data, off := f.bytes[f.Start(a)..f.Start(b + 1)], Mul(r - a, f.rowBytes);
      off + f.rowBytes <= |data| && data[off..off + f.rowBytes] == f.Row(r)
  {
    SlotsMonotone(r + 1, b + 1, f.rowBytes);
    MulAdds(a, r - a, f.rowBytes);
    SliceOfSlice(f.bytes, f.Start(a), f.Start(b + 1), Mul(r - a, f.rowBytes), f.rowBytes);
  }

  /** The ranges one lookup asks for. */
  method PlanRanges(ids: seq<nat>, rowBytes: nat, gap: nat) returns (ranges: seq<Range>)
    ensures Apart(ranges, rowBytes, gap) && |ranges| <= |Unique(ids)|
    ensures forall r :: r in ids ==> InRange(ranges, r)
    ensures AtRows(ranges, ids)
  {
    var order := ArgSort(Keys(ids));
    ArgSortSorts(Keys(ids));
    var sorted := seq(|ids|, j requires 0 <= j < |ids| => ids[order[j]]);
    SortedSameRows(ids, order, sorted);
    ranges := Coalesce(sorted, rowBytes, gap);
    CoalescedRanges(ranges, sorted, rowBytes, gap);
  }

  /** Every range can be read. */
  ghost predicate AllFetched(f: File, ranges: seq<Range>) {
    forall k :: 0 <= k < |ranges| ==> f.Has(ranges[k].last)
  }

  /** The bytes of a range. */
  function Blob(f: File, range: Range): Bytes
    requires range.first <= range.last && f.Has(range.last)
  {
    SlotsMonotone(range.first, range.last + 1, f.rowBytes);
    f.bytes[f.Start(range.first)..f.Start(range.last + 1)]
  }

  /** Cut one row out of the blob of the range that holds it. */
  method CutRow(f: File, ranges: seq<Range>, gap: nat, r: nat) returns (row: Bytes)
    requires Apart(ranges, f.rowBytes, gap) && AllFetched(f, ranges) && InRange(ranges, r)
    ensures f.Has(r) && row == f.Row(r)
  {
    GreatestStartContains(ranges, f.rowBytes, gap, r);
    var k := GreatestStart(ranges, r);
    row := RowOfBlob(f, ranges[k], r);
  }

  method RowOfBlob(f: File, range: Range, r: nat) returns (row: Bytes)
    requires range.first <= r <= range.last && f.Has(range.last)
    ensures f.Has(r) && row == f.Row(r)
  {
    RowInRange(f, range.first, range.last, r);
    var data, off := Blob(f, range), Mul(r - range.first, f.rowBytes);
    row := data[off..off + f.rowBytes];
  }

  /** Rows by coalesced range requests, in any order and with duplicates. */
  method HfReadRows(f: File, ids: seq<nat>, gap: nat) returns (rows: Option<seq<Bytes>>, requests: nat)
    ensures rows == f.RowsOf(ids) && ReadsRows(f, ids, rows)
    ensures requests <= |Unique(ids)|
  {
    RowsOfReads(f, ids);
    var ranges := PlanRanges(ids, f.rowBytes, gap);
    requests := |ranges|;
    var fetched := FetchRanges(f, ranges, ids);
    if !fetched {
      return None, requests;
    }
    var out: seq<Bytes> := [];
    var i := 0;
    while i < |ids|
      invariant 0 <= i <= |ids| && |out| == i
      invariant ReadSoFar(f, ids, out)
    {
      assert ids[i] in ids;
      var row := CutRow(f, ranges, gap, ids[i]);
      ReadOneMore(f, ids, out);
      out := out + [row];
      i := i + 1;
    }
    rows := Some(out);
    ReadAll(f, ids, out);
  }

  /** Request the ranges; one that reaches behind the file fails the lookup. */
  method FetchRanges(f: File, ranges: seq<Range>, ghost ids: seq<nat>) returns (ok: bool)
    requires AtRows(ranges, ids)
    ensures ok ==> AllFetched(f, ranges)
    ensures !ok ==> f.RowsOf(ids) == None
  {
    var k := 0;
    while k < |ranges|
      invariant 0 <= k <= |ranges|
      invariant forall j :: 0 <= j < k ==> f.Has(ranges[j].last)
    {
      if !f.Has(ranges[k].last) {
        assert EndsAtRows(ranges[k], ids) && ranges[k].last in ids;
        return false;
      }
      k := k + 1;
    }
    return true;
  }

  lemma SortedSameRows(ids: seq<nat>, order: seq<nat>, sorted: seq<nat>)
    requires InOrder(Keys(ids), order) && Lists(order, |ids|) && |order| == |sorted| == |ids|
    requires forall j :: 0 <= j < |ids| ==> sorted[j] == ids[order[j]]
    ensures Sorted(sorted) && (forall r :: r in sorted <==> r in ids)
    ensures Unique(sorted) == Unique(ids)
  {
    forall i, j | 0 <= i < j < |sorted|
      ensures sorted[i] <= sorted[j]
    {
      assert Before(Keys(ids), order[i], order[j]);
    }
    forall r | r in ids
      ensures r in sorted
    {
      var i :| 0 <= i < |ids| && ids[i] == r;
      assert i in order;
      var j :| 0 <= j < |order| && order[j] == i;
      assert sorted[j] == r;
    }
    SameMembersSameUnique(Unique(sorted), Unique(ids));
  }

  lemma {:induction false} SameMembersSameUnique(a: seq<nat>, b: seq<nat>)
    requires Increasing(a) && Increasing(b) && forall x :: x in a <==> x in b
    ensures a == b
  {
    if a == [] {
      assert b == [] by {
        if b != [] {
          FirstIsMember(b);
        }
      }
    } else {
      FirstIsMember(a);
      FirstIsMember(b);
      RestMembers(a);
      RestMembers(b);
      SameMembersSameUnique(a[1..], b[1..]);
    }
  }

  lemma RestMembers(a: seq<nat>)
    requires Increasing(a) && a != []
    ensures Increasing(a[1..]) && forall x :: x in a[1..] <==> x in a && x != a[0]
    ensures forall x :: x in a ==> a[0] <= x
  {
    assert a == [a[0]] + a[1..];
  }
}
