/**
 Looking rows up by global id: sort by shard, fetch shard by shard through a row cache,
 and undo the sort. The result is that of direct indexing.
 */
module NGramLookup {
  import opened Collections
  import opened Recency
  import opened Arithmetic
  import opened Sorting
  import opened NGramRows

  type Row = seq<int>  // a dequantised row

  /** Where the tensors of a table live: `kinds` tensors per shard, read by row. */
  datatype Store =
    | Disk(kinds: nat, shards: seq<seq<File>>)
    | Remote(kinds: nat, shards: seq<seq<File>>, gap: nat)
  {
    predicate Valid() {
      forall s :: 0 <= s < |shards| ==> |shards[s]| == kinds
    }

    /** The raw bytes of one row, one string per kind, if the table has the row. */
    function Value(key: RowKey): Option<seq<Bytes>>
      requires Valid()
    {
      if key.shard < |shards| && forall k :: 0 <= k < kinds ==> shards[key.shard][k].Has(key.row) then
        Some(seq(kinds, k requires 0 <= k < kinds && shards[key.shard][k].Has(key.row) => shards[key.shard][k].Row(key.row)))
      else None
    }

    /** `_read_rows` for one kind. */
    method ReadRows(kind: nat, shard: nat, ids: seq<nat>) returns (rows: Option<seq<Bytes>>)
      requires Valid() && kind < kinds && shard < |shards|
      ensures rows == shards[shard][kind].RowsOf(ids)
    {
      if Disk? {
        rows := DiskReadRows(shards[shard][kind], ids);
      } else {
        var requests;
        rows, requests := HfReadRows(shards[shard][kind], ids, gap);
      }
    }

    /** The values of rows the cache did not have: one read per kind, then transposed. */
    method ReadValues(shard: nat, ids: seq<nat>) returns (values: Option<seq<seq<Bytes>>>)
      requires Valid() && ids != []
      ensures values == AllValues(shard, ids)
    {
      if shard >= |shards| {
        assert Value(RowKey(shard, ids[0])) == None;
        return None;
      }
      var perKind: seq<seq<Bytes>> := [];
      var k := 0;
      while k < kinds
        invariant 0 <= k <= kinds && |perKind| == k
        invariant forall j :: 0 <= j < k ==> shards[shard][j].RowsOf(ids) == Some(perKind[j])
      {
        var rows := ReadRows(k, shard, ids);
        if rows.None? {
          var i :| 0 <= i < |ids| && !shards[shard][k].Has(ids[i]);
          assert Value(RowKey(shard, ids[i])) == None;
          return None;
        }
        perKind := perKind + [rows.value];
        k := k + 1;
      }
      forall j, i | 0 <= j < kinds && 0 <= i < |ids|
        ensures i < |perKind[j]| && shards[shard][j].Has(ids[i]) && perKind[j][i] == shards[shard][j].Row(ids[i])
      {
        assert shards[shard][j].RowsOf(ids) == Some(perKind[j]);
      }
      var out := seq(|ids|, i requires 0 <= i < |ids| =>
        seq(kinds, j requires 0 <= j < kinds => if j < |perKind| && i < |perKind[j]| then perKind[j][i] else []));
      forall i | 0 <= i < |ids|
        ensures Value(RowKey(shard, ids[i])) == Some(out[i])
      {
        assert Value(RowKey(shard, ids[i])).value == out[i];
      }
      values := Some(out);
      assert out == AllValues(shard, ids).value;
    }

    function AllValues(shard: nat, ids: seq<nat>): (r: Option<seq<seq<Bytes>>>)
      requires Valid()
    {
      if forall i :: 0 <= i < |ids| ==> Value(RowKey(shard, ids[i])).Some? then
        Some(seq(|ids|, i requires 0 <= i < |ids| && Value(RowKey(shard, ids[i])).Some? => Value(RowKey(shard, ids[i])).value))
      else None
    }
  }

  /** A row of the store is, for each kind of tensor, the bytes at that row's place in the shard's
      file, and is there when all of them are. */
  lemma ValueIsSlices(store: Store, key: RowKey)
    requires store.Valid()
    ensures store.Value(key).Some?
       <==> key.shard < |store.shards| && forall k :: 0 <= k < store.kinds ==> HoldsRow(store.shards[key.shard][k], key.row)
    ensures store.Value(key).Some? ==> |store.Value(key).value| == store.kinds
    ensures store.Value(key).Some? ==> forall k :: 0 <= k < store.kinds ==>
              store.Value(key).value[k] == RowBytes(store.shards[key.shard][k], key.row)
  {
    if key.shard < |store.shards| {
      forall k | 0 <= k < store.kinds
        ensures store.shards[key.shard][k].Has(key.row) <==> HoldsRow(store.shards[key.shard][k], key.row)
        ensures store.shards[key.shard][k].Has(key.row) ==>
                  store.shards[key.shard][k].Row(key.row) == RowBytes(store.shards[key.shard][k], key.row)
      {
        RowIsSlice(store.shards[key.shard][k], key.row);
      }
    }
  }

  /** The table as an array of rows. */
  datatype Table = Table(store: Store, rowsPerShard: nat, dequantise: seq<Bytes> -> Row) {
    predicate Valid() {
      store.Valid() && rowsPerShard > 0
    }

    predicate HasRow(id: nat)
      requires Valid()
    {
      store.Value(KeyOf(id)).Some?
    }

    function KeyOf(id: nat): RowKey
      requires Valid()
    {
      RowKey(Quot(id, rowsPerShard), Rem(id, rowsPerShard))
    }

    function At(id: nat): Row
      requires Valid() && HasRow(id)
    {
      dequantise(store.Value(KeyOf(id)).value)
    }
  }

  /** The table's shards put one behind the other; a slot is empty where a shard lacks the row. */
  function Flat(table: Table, n: nat): (slots: seq<Option<Row>>)
    requires table.Valid()
    ensures |slots| == Mul(n, table.rowsPerShard)
  {
    if n == 0 then [] else Flat(table, n - 1) + Slots(table, n - 1)
  }

  /** The rows of one shard. */
  function Slots(table: Table, shard: nat): (slots: seq<Option<Row>>)
    requires table.Valid()
    ensures |slots| == table.rowsPerShard
  {
    seq(table.rowsPerShard, i requires 0 <= i < table.rowsPerShard =>
      var value := table.store.Value(RowKey(shard, i));
      if value.Some? then Some(table.dequantise(value.value)) else None)
  }

  /** Picking rows from one array; an id outside it, or an empty slot, is an error. */
  function Indexed(slots: seq<Option<Row>>, ids: seq<nat>): Option<seq<Row>> {
    if forall i :: 0 <= i < |ids| ==> ids[i] < |slots| && slots[ids[i]].Some? then
      Some(seq(|ids|, i requires 0 <= i < |ids| && ids[i] < |slots| && slots[ids[i]].Some? => slots[ids[i]].value))
    else None
  }

  lemma {:induction false} FlatAt(table: Table, n: nat, id: nat)
    requires table.Valid() && id < Mul(n, table.rowsPerShard)
    ensures Flat(table, n)[id] == if table.HasRow(id) then Some(table.At(id)) else None
  {
    var before := Mul(n - 1, table.rowsPerShard);
    if id < before {
      FlatAt(table, n - 1, id);
    } else {
      SlotOf(n - 1, table.rowsPerShard, id - before);
      assert Flat(table, n)[id] == Slots(table, n - 1)[id - before];
    }
  }

  /** Quotient and remainder of an id that lies `r` rows into shard `q`. */
  lemma SlotOf(q: nat, rows: nat, r: nat)
    requires r < rows
    ensures Quot(Mul(q, rows) + r, rows) == q && Rem(Mul(q, rows) + r, rows) == r
  {
    QuotRemDivide(Mul(q, rows) + r, rows);
    MulIsProduct(q, rows);
    UniqueDivision(Mul(q, rows) + r, rows, q, r);
  }

  lemma BehindTheTable(table: Table, id: nat)
    requires table.Valid() && id >= Mul(|table.store.shards|, table.rowsPerShard)
    ensures !table.HasRow(id)
  {
    QuotRemDivide(id, table.rowsPerShard);
    if table.KeyOf(id).shard < |table.store.shards| {
      SlotsDisjoint(table.KeyOf(id).shard, |table.store.shards|, table.rowsPerShard);
    }
  }

  /** Finding rows by shard and local row is indexing the one array of all shards. */
  lemma DirectIsIndexing(table: Table, ids: seq<nat>)
    requires table.Valid()
    ensures Direct(table, ids) == Indexed(Flat(table, |table.store.shards|), ids)
  {
    var slots := Flat(table, |table.store.shards|);
    forall i | 0 <= i < |ids|
      ensures table.HasRow(ids[i]) <==> ids[i] < |slots| && slots[ids[i]].Some?
      ensures table.HasRow(ids[i]) ==> slots[ids[i]] == Some(table.At(ids[i]))
    {
      if ids[i] < |slots| {
        FlatAt(table, |table.store.shards|, ids[i]);
      } else {
        BehindTheTable(table, ids[i]);
      }
    }
    if Direct(table, ids).Some? {
      assert Direct(table, ids).value == Indexed(slots, ids).value;
    }
  }

  /** The recency order after looking up the first `n` ids. */
  function AfterGets(order: seq<RowKey>, shard: nat, uniq: seq<nat>, n: nat): seq<RowKey>
    requires n <= |uniq|
  {
    if n == 0 then order
    else
      var before, key := AfterGets(order, shard, uniq, n - 1), RowKey(shard, uniq[n - 1]);
      if key in before then Touch(before, key) else before
  }

  lemma {:induction false} GetsKeepMembers(order: seq<RowKey>, shard: nat, uniq: seq<nat>, n: nat)
    requires n <= |uniq|
    ensures forall k :: k in AfterGets(order, shard, uniq, n) <==> k in order
  {
    if n > 0 {
      GetsKeepMembers(order, shard, uniq, n - 1);
      TouchKeeps(AfterGets(order, shard, uniq, n - 1), RowKey(shard, uniq[n - 1]));
    }
  }

  /** The recency order after storing a row, then after the first `n` of several. */
  function AfterPut(order: seq<RowKey>, key: RowKey, maxRows: nat): seq<RowKey> {
    var long := Touch(order, key);
    if |long| > maxRows then long[1..] else long
  }

  /** The stored row is the newest, the others keep their order, and only the oldest of them leaves,
      when they do not all fit. */
  lemma PutEvictsOldest(order: seq<RowKey>, key: RowKey, maxRows: nat)
    requires Distinct(order) && |order| <= maxRows && maxRows > 0
    ensures var after, others := AfterPut(order, key, maxRows), Without(order, key);
      && after == (if |others| < maxRows then others else others[1..]) + [key]
      && |after| <= maxRows && (|others| == maxRows <==> key !in order && |order| == maxRows)
  {
    var others := Without(order, key);
    WithoutKeeps(order, key);
    if |others| == maxRows {
      assert (others + [key])[1..] == others[1..] + [key];
    }
  }

  function AfterPuts(order: seq<RowKey>, shard: nat, ids: seq<nat>, n: nat, maxRows: nat): seq<RowKey>
    requires n <= |ids|
  {
    if n == 0 then order else AfterPut(AfterPuts(order, shard, ids, n - 1, maxRows), RowKey(shard, ids[n - 1]), maxRows)
  }

  /** The ids among the first `n` whose rows are not cached. */
  function Missed(order: seq<RowKey>, shard: nat, uniq: seq<nat>, n: nat): seq<nat>
    requires n <= |uniq|
  {
    if n == 0 then []
    else Missed(order, shard, uniq, n - 1) + if RowKey(shard, uniq[n - 1]) in order then [] else [uniq[n - 1]]
  }

  /** The recency order after the rows of distinct ids were asked for: hits were touched,
      then the misses stored, unless reading them failed. */
  function AfterRows(order: seq<RowKey>, shard: nat, uniq: seq<nat>, maxRows: nat, ok: bool): seq<RowKey> {
    var touched, missed := AfterGets(order, shard, uniq, |uniq|), Missed(order, shard, uniq, |uniq|);
    if ok then AfterPuts(touched, shard, missed, |missed|, maxRows) else touched
  }

  /** A row source: the table behind a least-recently-used cache of raw rows. */
  class RowSource {
    const table: Table
    const maxRows: nat
    var order: seq<RowKey>
    var cached: map<RowKey, seq<Bytes>>
    var hits: nat
    var misses: nat
    var readCount: nat

    ghost predicate Valid()
      reads this
    {
      && table.Valid() && Distinct(order) && |order| <= maxRows
      && (forall k :: k in order <==> k in cached)
      && (forall k :: k in cached ==> table.store.Value(k) == Some(cached[k]))
    }

    constructor (table: Table, maxRows: nat)
      requires table.Valid()
      ensures Valid() && this.table == table && this.maxRows == maxRows && cached == map[]
      ensures hits == misses == readCount == 0
    {
      this.table, this.maxRows := table, maxRows;
      order, cached, hits, misses, readCount := [], map[], 0, 0, 0;
    }

    method LruGet(key: RowKey) returns (v: Option<seq<Bytes>>)
      requires Valid()
      modifies this`order, this`hits, this`misses
      ensures Valid()
      ensures v == if key in cached then Some(cached[key]) else None
      ensures if key in cached then order == Touch(old(order), key) && hits == old(hits) + 1 && misses == old(misses)
              else order == old(order) && hits == old(hits) && misses == old(misses) + 1
    {
      if key !in cached {
        misses := misses + 1;
        return None;
      }
      TouchKeeps(order, key);
      order := Touch(order, key);
      hits := hits + 1;
      return Some(cached[key]);
    }

    /** Append, then evict the oldest row of an overfull cache. */
    method LruPut(key: RowKey, v: seq<Bytes>)
      requires Valid() && table.store.Value(key) == Some(v)
      modifies this`order, this`cached
      ensures Valid()
      ensures order == AfterPut(old(order), key, maxRows)
    {
      TouchKeeps(order, key);
      cached, order := cached[key := v], Touch(order, key);
      if |order| > maxRows {
        DistinctTail(order);
        cached, order := cached - {order[0]}, order[1..];
      }
    }

    /** The raw rows of distinct ids, from the cache or read and cached. */
    method RawRows(shard: nat, uniq: seq<nat>) returns (raw: Option<seq<seq<Bytes>>>)
      requires Valid()
      modifies this
      ensures Valid()
      ensures raw == table.store.AllValues(shard, uniq)
      ensures order == AfterRows(old(order), shard, uniq, maxRows, raw.Some?)
      ensures misses == old(misses) + |Missed(old(order), shard, uniq, |uniq|)|
      ensures hits + misses == old(hits + misses) + |uniq|
      ensures readCount == old(readCount) + if raw.Some? then |Missed(old(order), shard, uniq, |uniq|)| else 0
    {
      var found, missing := Probe(shard, uniq);
      if missing == [] {
        assert found == table.store.AllValues(shard, uniq).value by {
          FoundIsAll(table.store, shard, uniq, found, missing, []);
        }
        return Some(found);
      }
      raw := ReadMissing(shard, uniq, found, missing, old(order));
    }

    /** Read the rows the cache did not have, store them, and put them in their places. */
    method ReadMissing(shard: nat, uniq: seq<nat>, found: seq<seq<Bytes>>, missing: seq<nat>, ghost before: seq<RowKey>)
      returns (raw: Option<seq<seq<Bytes>>>)
      requires Valid() && missing != [] && Probed(table.store, shard, uniq, found, missing, |uniq|)
      requires order == AfterGets(before, shard, uniq, |uniq|) && MissedAt(uniq, missing, Missed(before, shard, uniq, |uniq|))
      modifies this`order, this`cached, this`readCount
      ensures Valid()
      ensures raw == table.store.AllValues(shard, uniq)
      ensures order == AfterRows(before, shard, uniq, maxRows, raw.Some?)
      ensures readCount == old(readCount) + if raw.Some? then |Missed(before, shard, uniq, |uniq|)| else 0
    {
      var ids := seq(|missing|, j requires 0 <= j < |missing| && missing[j] < |uniq| => uniq[missing[j]]);
      assert ids == Missed(before, shard, uniq, |uniq|);
      var values := table.store.ReadValues(shard, ids);
      if values.None? {
        var j :| 0 <= j < |ids| && table.store.Value(RowKey(shard, ids[j])).None?;
        assert ids[j] == uniq[missing[j]];
        return None;
      }
      raw := Some(Fill(found, missing, values.value));
      FoundIsAll(table.store, shard, uniq, found, missing, values.value);
      StoreAll(shard, ids, values.value);
    }

    /** Look every id up; the positions that missed are listed in order. */
    method Probe(shard: nat, uniq: seq<nat>) returns (found: seq<seq<Bytes>>, missing: seq<nat>)
      requires Valid()
      modifies this`order, this`hits, this`misses
      ensures Valid() && Probed(table.store, shard, uniq, found, missing, |uniq|)
      ensures order == AfterGets(old(order), shard, uniq, |uniq|) && hits + misses == old(hits + misses) + |uniq|
      ensures misses == old(misses) + |missing|
      ensures MissedAt(uniq, missing, Missed(old(order), shard, uniq, |uniq|))
    {
      found, missing := [], [];
      for i := 0 to |uniq|
        invariant Valid() && Probed(table.store, shard, uniq, found, missing, i)
        invariant order == AfterGets(old(order), shard, uniq, i) && hits + misses == old(hits + misses) + i
        invariant misses == old(misses) + |missing|
        invariant MissedAt(uniq, missing, Missed(old(order), shard, uniq, i))
      {
        found, missing := ProbeOne(shard, uniq, i, found, missing, old(order));
      }
    }

    method ProbeOne(shard: nat, uniq: seq<nat>, i: nat, found: seq<seq<Bytes>>, missing: seq<nat>, ghost before: seq<RowKey>)
      returns (found': seq<seq<Bytes>>, missing': seq<nat>)
      requires Valid() && i < |uniq| && Probed(table.store, shard, uniq, found, missing, i)
      requires order == AfterGets(before, shard, uniq, i) && MissedAt(uniq, missing, Missed(before, shard, uniq, i))
      modifies this`order, this`hits, this`misses
      ensures Valid() && Probed(table.store, shard, uniq, found', missing', i + 1)
      ensures order == AfterGets(before, shard, uniq, i + 1) && hits + misses == old(hits + misses) + 1
      ensures misses == old(misses) + |missing'| - |missing|
      ensures MissedAt(uniq, missing', Missed(before, shard, uniq, i + 1))
    {
      var key := RowKey(shard, uniq[i]);
      GetsKeepMembers(before, shard, uniq, i);
      MissedOneMore(uniq, missing, before, shard, i);
      ProbedOneMore(table.store, shard, uniq, found, missing, i, if key in cached then Some(cached[key]) else None);
      var v := LruGet(key);
      if v.None? {
        return found + [[]], missing + [i];
      }
      return found + [v.value], missing;
    }

    method StoreAll(shard: nat, ids: seq<nat>, values: seq<seq<Bytes>>)
      requires Valid() && table.store.AllValues(shard, ids) == Some(values)
      modifies this`order, this`cached, this`readCount
      ensures Valid() && readCount == old(readCount) + |ids|
      ensures order == AfterPuts(old(order), shard, ids, |ids|, maxRows)
    {
      var j := 0;
      while j < |ids|
        invariant 0 <= j <= |ids| && Valid() && readCount == old(readCount)
        invariant order == AfterPuts(old(order), shard, ids, j, maxRows)
      {
        LruPut(RowKey(shard, ids[j]), values[j]);
        j := j + 1;
      }
      readCount := readCount + |ids|;
    }

    /** Rows of one shard, in any order and with duplicates. */
    method Rows(shard: nat, ids: seq<nat>) returns (rows: Option<seq<Row>>)
      requires Valid()
      modifies this
      ensures Valid()
      ensures rows == ShardRows(table, shard, ids)
      ensures order == AfterRows(old(order), shard, Unique(ids), maxRows, rows.Some?)
    {
      var uniq := Unique(ids);
      var raw := RawRows(shard, uniq);
      if raw.None? {
        var i :| 0 <= i < |uniq| && table.store.Value(RowKey(shard, uniq[i])).None?;
        assert uniq[i] in uniq && uniq[i] in ids;
        return None;
      }
      PickedRows(table, shard, ids, raw.value);
      return Some(Picked(table, ids, uniq, raw.value));
    }

    /** Sort the ids by shard, fetch shard after shard, and undo the sort. */
    method Lookup(ids: seq<nat>) returns (rows: Option<seq<Row>>)
      requires Valid() && ids != []
      modifies this
      ensures Valid()
      ensures rows == Indexed(Flat(table, |table.store.shards|), ids)
    {
      DirectIsIndexing(table, ids);
      var shard := Shards(table, ids);
      var order := ArgSort(Keys(shard));
      var inv := ArgSort(Keys(order));
      ArgSortSorts(Keys(shard));
      var sortedIds := seq(|ids|, k requires 0 <= k < |ids| => ids[order[k]]);
      SortedByShard(table, ids, shard, order, sortedIds);
      var sorted := FetchSorted(sortedIds);
      if sorted.None? {
        MissingSomewhere(table, ids, order, sortedIds);
        return None;
      }
      SortUndone(table, ids, order, sortedIds, sorted.value);
      return Some(seq(|ids|, i requires 0 <= i < |ids| && inv[i] < |sorted.value| => sorted.value[inv[i]]));
    }

    /** Rows of ids that are sorted by shard: one fetch per shard, concatenated. */
    method FetchSorted(ids: seq<nat>) returns (rows: Option<seq<Row>>)
      requires Valid() && Sorted(Shards(table, ids))
      modifies this
      ensures Valid()
      ensures rows == Direct(table, ids)
    {
      var shards := Shards(table, ids);
      var uniq := Unique(shards);
      var acc: seq<Row> := [];
      var u := 0;
      while u < |uniq|
        invariant 0 <= u <= |uniq| && Valid()
        invariant |acc| == RunStart(shards, uniq, u)
        invariant Gathered(table, ids, acc)
      {
        var chunk := FetchShard(ids, shards, uniq, u);
        if chunk.None? {
          return None;
        }
        GatherChunk(table, ids, acc, chunk.value);
        acc := acc + chunk.value;
        u := u + 1;
      }
      AllGathered(table, ids, uniq, acc);
      return Some(acc);
    }

    /** The rows of one shard's run. */
    method FetchShard(ids: seq<nat>, shards: seq<nat>, uniq: seq<nat>, u: nat) returns (chunk: Option<seq<Row>>)
      requires Valid() && shards == Shards(table, ids) && Sorted(shards) && uniq == Unique(shards) && u < |uniq|
      modifies this
      ensures Valid()
      ensures chunk.None? ==> Direct(table, ids) == None
      ensures chunk.Some? ==> RunStart(shards, uniq, u) + |chunk.value| == RunStart(shards, uniq, u + 1)
      ensures chunk.Some? ==> RowsFrom(table, ids, RunStart(shards, uniq, u), chunk.value)
    {
      var sel := Positions(shards, uniq[u]);
      var locals := seq(|sel|, j requires 0 <= j < |sel| => Rem(ids[sel[j]], table.rowsPerShard));
      RunOfShard(table, ids, uniq, u, locals);
      chunk := Rows(uniq[u], locals);
      if chunk.None? {
        MissingRow(table, ids, RunStart(shards, uniq, u), uniq[u], locals);
      } else {
        FoundRows(table, ids, RunStart(shards, uniq, u), uniq[u], locals, chunk.value);
      }
    }
  }

  /** Where the run of the u-th distinct shard starts. */
  function RunStart(shards: seq<nat>, uniq: seq<nat>, u: nat): nat
    requires u <= |uniq|
  {
    if u == 0 then 0 else Boundary(shards, uniq[u - 1])
  }

  /** `chunk` holds the rows of the ids from `lo` on. */
  ghost predicate RowsFrom(table: Table, ids: seq<nat>, lo: nat, chunk: seq<Row>)
    requires table.Valid()
  {
    lo + |chunk| <= |ids| && forall j :: 0 <= j < |chunk| ==> RowAt(table, ids, lo + j, chunk[j])
  }

  ghost predicate RowAt(table: Table, ids: seq<nat>, k: nat, row: Row)
    requires table.Valid()
  {
    k < |ids| && table.HasRow(ids[k]) && row == table.At(ids[k])
  }

  function Shards(table: Table, ids: seq<nat>): (shards: seq<nat>)
    requires table.Valid()
    ensures |shards| == |ids| && forall i :: 0 <= i < |ids| ==> shards[i] == table.KeyOf(ids[i]).shard
  {
    seq(|ids|, i requires 0 <= i < |ids| => Quot(ids[i], table.rowsPerShard))
  }

  lemma SortedByShard(table: Table, ids: seq<nat>, shard: seq<nat>, order: seq<nat>, sortedIds: seq<nat>)
    requires table.Valid() && |shard| == |order| == |sortedIds| == |ids|
    requires shard == Shards(table, ids)
    requires InOrder(Keys(shard), order)
    requires forall k :: 0 <= k < |ids| ==> sortedIds[k] == ids[order[k]]
    ensures Sorted(Shards(table, sortedIds))
  {
    var s := Shards(table, sortedIds);
    forall i, j | 0 <= i < j < |s|
      ensures s[i] <= s[j]
    {
      assert Before(Keys(shard), order[i], order[j]);
    }
  }

  lemma MissingSomewhere(table: Table, ids: seq<nat>, order: seq<nat>, sortedIds: seq<nat>)
    requires table.Valid() && |order| == |sortedIds| == |ids|
    requires forall k :: 0 <= k < |ids| ==> order[k] < |ids| && sortedIds[k] == ids[order[k]]
    requires Direct(table, sortedIds) == None
    ensures Direct(table, ids) == None
  {
    var k :| 0 <= k < |sortedIds| && !table.HasRow(sortedIds[k]);
    assert !table.HasRow(ids[order[k]]);
  }

  /** Gathering with the inverse permutation puts every row back in its place. */
  lemma SortUndone(table: Table, ids: seq<nat>, order: seq<nat>, sortedIds: seq<nat>, sorted: seq<Row>)
    requires table.Valid() && |order| == |sortedIds| == |ids|
    requires Distinct(order) && Lists(order, |order|)
    requires forall k :: 0 <= k < |ids| ==> order[k] < |ids| && sortedIds[k] == ids[order[k]]
    requires Direct(table, sortedIds) == Some(sorted)
    ensures var inv := ArgSort(Keys(order));
      Direct(table, ids) == Some(seq(|ids|, i requires 0 <= i < |ids| && inv[i] < |sorted| => sorted[inv[i]]))
  {
    var inv := ArgSort(Keys(order));
    forall i | 0 <= i < |ids|
      ensures table.HasRow(ids[i]) && sorted[inv[i]] == table.At(ids[i])
    {
      ArgSortInverts(order, i);
      assert sortedIds[inv[i]] == ids[i];
      assert table.HasRow(sortedIds[inv[i]]);
    }
    assert Direct(table, ids).value == seq(|ids|, i requires 0 <= i < |ids| && inv[i] < |sorted| => sorted[inv[i]]);
  }

  /** The rows gathered so far are those of the first ids. */
  ghost predicate Gathered(table: Table, ids: seq<nat>, acc: seq<Row>)
    requires table.Valid()
  {
    |acc| <= |ids| && forall k :: 0 <= k < |acc| ==> table.HasRow(ids[k]) && acc[k] == table.At(ids[k])
  }

  /** From position `lo` on, the ids are those of one shard with these local rows. */
  ghost predicate IsRun(table: Table, ids: seq<nat>, lo: nat, shard: nat, locals: seq<nat>)
    requires table.Valid()
  {
    lo + |locals| <= |ids| && forall j :: 0 <= j < |locals| ==> table.KeyOf(ids[lo + j]) == RowKey(shard, locals[j])
  }

  lemma MissingRow(table: Table, ids: seq<nat>, lo: nat, shard: nat, locals: seq<nat>)
    requires table.Valid() && IsRun(table, ids, lo, shard, locals) && ShardRows(table, shard, locals) == None
    ensures Direct(table, ids) == None
  {
    var j :| 0 <= j < |locals| && table.store.Value(RowKey(shard, locals[j])).None?;
    assert table.KeyOf(ids[lo + j]) == RowKey(shard, locals[j]);
  }

  /** The positions of the u-th distinct shard are the next run. */
  lemma ShardPositions(s: seq<nat>, uniq: seq<nat>, u: nat)
    requires Sorted(s) && uniq == Unique(s) && u < |uniq|
    ensures var lo, hi := RunStart(s, uniq, u), RunStart(s, uniq, u + 1);
      && lo <= hi <= |s| && |Positions(s, uniq[u])| == hi - lo
      && forall j :: 0 <= j < hi - lo ==> Positions(s, uniq[u])[j] == lo + j && s[lo + j] == uniq[u]
  {
    var lo, hi := RunStart(s, uniq, u), RunStart(s, uniq, u + 1);
    forall i | 0 <= i < |s|
      ensures lo <= i < hi <==> s[i] == uniq[u]
    {
      assert s[i] in s;
      RunBetweenBoundaries(s, uniq, u, i);
    }
    BoundaryMonotone(s, uniq, u);
    PositionsAreRun(s, uniq[u], lo, hi);
  }

  /** The ids of the u-th distinct shard are the next run. */
  lemma RunOfShard(table: Table, ids: seq<nat>, uniq: seq<nat>, u: nat, locals: seq<nat>)
    requires table.Valid() && Sorted(Shards(table, ids)) && uniq == Unique(Shards(table, ids)) && u < |uniq|
    requires var sel := Positions(Shards(table, ids), uniq[u]);
      |locals| == |sel| && forall j :: 0 <= j < |sel| ==> locals[j] == Rem(ids[sel[j]], table.rowsPerShard)
    ensures var lo := RunStart(Shards(table, ids), uniq, u);
      lo + |locals| == RunStart(Shards(table, ids), uniq, u + 1) && IsRun(table, ids, lo, uniq[u], locals)
  {
    var s := Shards(table, ids);
    var lo := RunStart(s, uniq, u);
    ShardPositions(s, uniq, u);
    var sel := Positions(s, uniq[u]);
    forall j | 0 <= j < |locals|
      ensures table.KeyOf(ids[lo + j]) == RowKey(uniq[u], locals[j])
    {
      assert sel[j] == lo + j && s[lo + j] == uniq[u];
      assert locals[j] == Rem(ids[sel[j]], table.rowsPerShard);
    }
  }

  lemma BoundaryMonotone(s: seq<nat>, uniq: seq<nat>, u: nat)
    requires Sorted(s) && Increasing(uniq) && u < |uniq|
    ensures (if u == 0 then 0 else Boundary(s, uniq[u - 1])) <= Boundary(s, uniq[u])
  {
    if u > 0 {
      var lo, hi := Boundary(s, uniq[u - 1]), Boundary(s, uniq[u]);
      if hi < lo {
        BoundarySplits(s, uniq[u - 1], hi);
        BoundarySplits(s, uniq[u], hi);
      }
    }
  }

  lemma FoundRows(table: Table, ids: seq<nat>, lo: nat, shard: nat, locals: seq<nat>, chunk: seq<Row>)
    requires table.Valid() && IsRun(table, ids, lo, shard, locals) && ShardRows(table, shard, locals) == Some(chunk)
    ensures RowsFrom(table, ids, lo, chunk)
  {
    forall j | 0 <= j < |chunk|
      ensures RowAt(table, ids, lo + j, chunk[j])
    {
      assert table.KeyOf(ids[lo + j]) == RowKey(shard, locals[j]);
    }
  }

  lemma GatherChunk(table: Table, ids: seq<nat>, acc: seq<Row>, chunk: seq<Row>)
    requires table.Valid() && Gathered(table, ids, acc) && RowsFrom(table, ids, |acc|, chunk)
    ensures Gathered(table, ids, acc + chunk)
  {
    var next := acc + chunk;
    forall k | 0 <= k < |next|
      ensures table.HasRow(ids[k]) && next[k] == table.At(ids[k])
    {
      if k >= |acc| {
        assert RowAt(table, ids, |acc| + (k - |acc|), chunk[k - |acc|]);
      }
    }
  }

  lemma AllGathered(table: Table, ids: seq<nat>, uniq: seq<nat>, acc: seq<Row>)
    requires table.Valid() && Sorted(Shards(table, ids)) && uniq == Unique(Shards(table, ids))
    requires Gathered(table, ids, acc)
    requires |acc| == if uniq == [] then 0 else Boundary(Shards(table, ids), uniq[|uniq| - 1])
    ensures Direct(table, ids) == Some(acc)
  {
    var s := Shards(table, ids);
    if |acc| < |ids| {
      assert s[|acc|] in s && s[|acc|] in uniq;
      BoundarySplits(s, uniq[|uniq| - 1], |acc|);
      assert false;
    }
    assert Direct(table, ids).value == acc;
  }

  /** Direct indexing: all the rows, or nothing when the table lacks one of them. */
  function Direct(table: Table, ids: seq<nat>): Option<seq<Row>>
    requires table.Valid()
  {
    if forall i :: 0 <= i < |ids| ==> table.HasRow(ids[i]) then
      Some(seq(|ids|, i requires 0 <= i < |ids| && table.HasRow(ids[i]) => table.At(ids[i])))
    else None
  }

  function ShardRows(table: Table, shard: nat, ids: seq<nat>): Option<seq<Row>>
    requires table.Valid()
  {
    if forall i :: 0 <= i < |ids| ==> table.store.Value(RowKey(shard, ids[i])).Some? then
      Some(seq(|ids|, i requires 0 <= i < |ids| && table.store.Value(RowKey(shard, ids[i])).Some? =>
        table.dequantise(table.store.Value(RowKey(shard, ids[i])).value)))
    else None
  }

  /** The first `n` ids were looked up: hits are in place, misses listed. */
  ghost predicate Probed(store: Store, shard: nat, uniq: seq<nat>, found: seq<seq<Bytes>>, missing: seq<nat>, n: nat)
    requires store.Valid()
  {
    && n <= |uniq| && |found| == n && Increasing(missing)
    && (forall j :: 0 <= j < |missing| ==> missing[j] < n)
    && (forall i :: 0 <= i < n ==> i in missing || store.Value(RowKey(shard, uniq[i])) == Some(found[i]))
  }

  /** The positions that missed, and the ids there. */
  ghost predicate MissedAt(uniq: seq<nat>, missing: seq<nat>, ids: seq<nat>) {
    |missing| == |ids| && forall j :: 0 <= j < |ids| ==> missing[j] < |uniq| && ids[j] == uniq[missing[j]]
  }

  /** Gather rows from those of the distinct ids. */
  function Picked(table: Table, ids: seq<nat>, uniq: seq<nat>, raw: seq<seq<Bytes>>): (rows: seq<Row>)
    ensures |rows| == |ids|
  {
    seq(|ids|, i requires 0 <= i < |ids| =>
      if ids[i] in uniq && IndexIn(uniq, ids[i]) < |raw| then table.dequantise(raw[IndexIn(uniq, ids[i])]) else [])
  }

  /** Every id gets its own row. */
  lemma PickedRows(table: Table, shard: nat, ids: seq<nat>, raw: seq<seq<Bytes>>)
    requires table.Valid() && table.store.AllValues(shard, Unique(ids)) == Some(raw)
    ensures ShardRows(table, shard, ids) == Some(Picked(table, ids, Unique(ids), raw))
  {
    var uniq := Unique(ids);
    forall i | 0 <= i < |ids|
      ensures table.store.Value(RowKey(shard, ids[i])).Some?
      ensures Picked(table, ids, uniq, raw)[i] == table.dequantise(table.store.Value(RowKey(shard, ids[i])).value)
    {
      assert ids[i] in ids;
      var k := IndexIn(uniq, ids[i]);
      assert table.store.Value(RowKey(shard, uniq[k])) == Some(raw[k]);
    }
    assert ShardRows(table, shard, ids).value == Picked(table, ids, uniq, raw);
  }

  lemma MissedOneMore(uniq: seq<nat>, missing: seq<nat>, order: seq<RowKey>, shard: nat, i: nat)
    requires i < |uniq| && MissedAt(uniq, missing, Missed(order, shard, uniq, i))
    ensures MissedAt(uniq, if RowKey(shard, uniq[i]) in order then missing else missing + [i], Missed(order, shard, uniq, i + 1))
  {
  }

  lemma ProbedOneMore(store: Store, shard: nat, uniq: seq<nat>, found: seq<seq<Bytes>>, missing: seq<nat>, i: nat, v: Option<seq<Bytes>>)
    requires store.Valid() && i < |uniq| && Probed(store, shard, uniq, found, missing, i)
    requires v.Some? ==> store.Value(RowKey(shard, uniq[i])) == v
    ensures Probed(store, shard, uniq, found + [if v.Some? then v.value else []], if v.Some? then missing else missing + [i], i + 1)
  {
  }

  /** Put the values read into the places that missed. */
  function Fill(found: seq<seq<Bytes>>, missing: seq<nat>, values: seq<seq<Bytes>>): (raw: seq<seq<Bytes>>)
    requires |missing| == |values|
    ensures |raw| == |found|
  {
    if missing == [] then found
    else
      var n := |missing| - 1;
      var rest := Fill(found, missing[..n], values[..n]);
      if missing[n] < |rest| then rest[missing[n] := values[n]] else rest
  }

  lemma {:induction false} FillPlaces(found: seq<seq<Bytes>>, missing: seq<nat>, values: seq<seq<Bytes>>, i: nat)
    requires |missing| == |values| && Increasing(missing) && i < |found|
    ensures var raw := Fill(found, missing, values);
      if i in missing then raw[i] == values[IndexIn(missing, i)] else raw[i] == found[i]
  {
    if missing != [] {
      var n := |missing| - 1;
      FillPlaces(found, missing[..n], values[..n], i);
      if i == missing[n] {
        OnlyIndex(missing, i, n);
        NotBefore(missing, n);
      } else if i in missing {
        var k := IndexIn(missing, i);
        assert missing[..n][k] == i;
        OnlyIndex(missing, i, IndexIn(missing[..n], i));
      }
    }
  }

  lemma OnlyIndex(s: seq<nat>, x: nat, k: nat)
    requires Increasing(s) && k < |s| && s[k] == x
    ensures x in s && IndexIn(s, x) == k
  {
  }

  lemma NotBefore(s: seq<nat>, n: nat)
    requires Increasing(s) && n < |s|
    ensures s[n] !in s[..n]
  {
  }

  lemma FoundIsAll(store: Store, shard: nat, uniq: seq<nat>, found: seq<seq<Bytes>>, missing: seq<nat>, values: seq<seq<Bytes>>)
    requires store.Valid() && Probed(store, shard, uniq, found, missing, |uniq|) && |values| == |missing|
    requires forall j :: 0 <= j < |missing| ==> store.Value(RowKey(shard, uniq[missing[j]])) == Some(values[j])
    ensures store.AllValues(shard, uniq) == Some(Fill(found, missing, values))
  {
    var raw := Fill(found, missing, values);
    forall i | 0 <= i < |uniq|
      ensures store.Value(RowKey(shard, uniq[i])) == Some(raw[i])
    {
      FillPlaces(found, missing, values, i);
    }
    assert store.AllValues(shard, uniq).value == raw;
  }

  /******* Lookup by global id *******/

  /** Positions whose value is `v`, ascending (`nonzero`). */
  function Positions(s: seq<nat>, v: nat): (p: seq<nat>)
    ensures forall j :: 0 <= j < |p| ==> p[j] < |s|
  {
    if s == [] then []
    else
      var n := |s| - 1;
      Positions(s[..n], v) + if s[n] == v then [n] else []
  }

  /** In a sorted sequence the positions of a value are a run. */
  lemma {:induction false} PositionsAreRun(s: seq<nat>, v: nat, lo: nat, hi: nat)
    requires lo <= hi <= |s| && forall i :: 0 <= i < |s| ==> (lo <= i < hi <==> s[i] == v)
    ensures |Positions(s, v)| == hi - lo
    ensures forall j :: 0 <= j < hi - lo ==> Positions(s, v)[j] == lo + j
  {
    if s != [] {
      var n := |s| - 1;
      if s[n] == v {
        PositionsAreRun(s[..n], v, lo, n);
      } else if hi == |s| {
        assert lo == |s|;
        PositionsAreRun(s[..n], v, n, n);
      } else {
        PositionsAreRun(s[..n], v, lo, hi);
      }
    }
  }
}
