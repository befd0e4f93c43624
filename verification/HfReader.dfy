/**
 The expert reader of a machine that holds only part of the model: local sparse layer files
 first, the remote checkpoint for the holes.
 */
module HfReader {
  import opened Collections
  import opened Arithmetic
  import opened BlockFormat
  import opened ExpertCache
  import ExpertReader
  import FetchPartition

  type Expert = seq<int>

  const PROBE: nat := 4096

  ghost predicate AllZero(s: Bytes) {
    forall i :: 0 <= i < |s| ==> s[i] == 0
  }

  /** The local files: what is on disk for a layer, and the blocks a manifest lists as real. No
      listed block means there is no manifest, and blocks are probed instead. */
  datatype Local = Local(file: nat -> Option<Bytes>, listed: set<Key>, blockSize: nat) {

    /** The first bytes at a block's offset are not all zero. */
    predicate LooksReal(file: Bytes, eid: nat) {
      var probe := Pread(file, PAGE + Mul(eid, blockSize), PROBE);
      exists i :: 0 <= i < |probe| && probe[i] != 0
    }

    /** `_read_local`. */
    function Read(key: Key): Option<Bytes> {
      var file := file(key.layer);
      if file.None? then None
      else if (if listed != {} then key !in listed else !LooksReal(file.value, key.expert)) then None
      else Some(FetchPartition.BlockOf(file.value, blockSize, key.expert))
    }
  }

  /** With a manifest exactly the listed blocks of the files there are, are read locally. */
  lemma ManifestDecides(local: Local, key: Key)
    requires local.listed != {}
    ensures local.Read(key).Some? <==> key in local.listed && local.file(key.layer).Some?
    ensures local.Read(key).Some? ==>
      local.Read(key).value == FetchPartition.BlockOf(local.file(key.layer).value, local.blockSize, key.expert)
  {
  }

  /** One of the bytes the probe sees is not zero. */
  ghost predicate HasData(file: Bytes, at: nat) {
    exists i :: at <= i < at + PROBE && i < |file| && file[i] != 0
  }

  /** Without one the bytes at the block's place decide. */
  lemma ProbeDecides(local: Local, key: Key)
    requires local.listed == {}
    ensures local.Read(key).Some?
       <==> local.file(key.layer).Some? && HasData(local.file(key.layer).value, PAGE + Mul(key.expert, local.blockSize))
    ensures local.Read(key).Some? ==>
      local.Read(key).value == FetchPartition.BlockOf(local.file(key.layer).value, local.blockSize, key.expert)
  {
    if local.file(key.layer).Some? {
      ProbeSeesData(local, local.file(key.layer).value, key.expert);
    }
  }

  lemma ProbeSeesData(local: Local, file: Bytes, eid: nat)
    ensures local.LooksReal(file, eid) <==> HasData(file, PAGE + Mul(eid, local.blockSize))
  {
    var at := PAGE + Mul(eid, local.blockSize);
    var probe := Pread(file, at, PROBE);
    assert forall j :: 0 <= j < |probe| ==> probe[j] == file[at + j];
    if HasData(file, at) {
      var i :| at <= i < at + PROBE && i < |file| && file[i] != 0;
      assert probe[i - at] != 0;
    }
    if local.LooksReal(file, eid) {
      var j :| 0 <= j < |probe| && probe[j] != 0;
      assert file[at + j] != 0;
    }
  }

  /** Every block of the model that is taken from disk is the published one. */
  ghost predicate Trustworthy(local: Local, layers: nat, experts: nat, published: Key -> Bytes) {
    forall k: Key :: k.layer < layers && k.expert < experts && local.Read(k).Some? ==> local.Read(k).value == published(k)
  }

  /** A block of at least the probe's length that is zero is recognised as a hole. */
  lemma HolesAreSeen(local: Local, file: Bytes, experts: nat, eid: nat)
    requires |file| == FetchPartition.FileSize(experts, local.blockSize) && eid < experts
    requires local.blockSize >= PROBE && AllZero(FetchPartition.BlockOf(file, local.blockSize, eid))
    ensures !local.LooksReal(file, eid)
  {
    FetchPartition.WholeBlock(file, local.blockSize, experts, eid);
    var at := PAGE + Mul(eid, local.blockSize);
    var probe := Pread(file, at, PROBE);
    forall i | 0 <= i < |probe|
      ensures probe[i] == 0
    {
      assert probe[i] == file[at + i] == FetchPartition.BlockOf(file, local.blockSize, eid)[i];
    }
  }

  /** A file of the expected size has only zeros at the place of a block. */
  ghost predicate IsHole(local: Local, file: Bytes, experts: nat, eid: nat) {
    |file| == FetchPartition.FileSize(experts, local.blockSize) && AllZero(FetchPartition.BlockOf(file, local.blockSize, eid))
  }

  /** Zero blocks are seen as holes in every file if and only if the probe cannot look into the
      next block: blocks are empty or as long as the probe, or this one is the last. */
  lemma ProbeTells(local: Local, experts: nat, eid: nat)
    requires eid < experts
    ensures (forall file: Bytes :: IsHole(local, file, experts, eid) ==> !local.LooksReal(file, eid))
       <==> local.blockSize == 0 || local.blockSize >= PROBE || eid + 1 == experts
  {
    var size := local.blockSize;
    if size == 0 || size >= PROBE || eid + 1 == experts {
      forall file: Bytes | IsHole(local, file, experts, eid)
        ensures !local.LooksReal(file, eid)
      {
        if size >= PROBE {
          HolesAreSeen(local, file, experts, eid);
        } else {
          LastHoleIsSeen(local, file, experts, eid);
        }
      }
    } else {
      var file := seq(FetchPartition.FileSize(experts, size), i => if i == PAGE + Mul(eid + 1, size) then 1 else 0);
      ShortBlockMisleads(local, file, experts, eid);
    }
  }

  /** The last block, and an empty one, ends with the file. */
  lemma LastHoleIsSeen(local: Local, file: Bytes, experts: nat, eid: nat)
    requires |file| == FetchPartition.FileSize(experts, local.blockSize) && eid < experts
    requires (local.blockSize == 0 || eid + 1 == experts) && AllZero(FetchPartition.BlockOf(file, local.blockSize, eid))
    ensures !local.LooksReal(file, eid)
  {
    FetchPartition.WholeBlock(file, local.blockSize, experts, eid);
    if local.blockSize == 0 {
      MulIsProduct(experts, 0);
      MulIsProduct(eid, 0);
    }
    var at := PAGE + Mul(eid, local.blockSize);
    assert at + local.blockSize == |file|;
    var probe := Pread(file, at, PROBE);
    forall i | 0 <= i < |probe|
      ensures probe[i] == 0
    {
      assert probe[i] == file[at + i] == FetchPartition.BlockOf(file, local.blockSize, eid)[i];
    }
  }

  /** A shorter block before others: a hole before a block that starts with data looks real. */
  lemma ShortBlockMisleads(local: Local, file: Bytes, experts: nat, eid: nat)
    requires 0 < local.blockSize < PROBE && eid + 1 < experts && |file| == FetchPartition.FileSize(experts, local.blockSize)
    requires forall i :: 0 <= i < |file| ==> file[i] == if i == PAGE + Mul(eid + 1, local.blockSize) then 1 else 0
    ensures IsHole(local, file, experts, eid) && local.LooksReal(file, eid)
  {
    var at, size := PAGE + Mul(eid, local.blockSize), local.blockSize;
    FetchPartition.WholeBlock(file, size, experts, eid);
    FetchPartition.WholeBlock(file, size, experts, eid + 1);
    var probe := Pread(file, at, PROBE);
    assert probe[size] == file[at + size] == 1;
  }

  /** What a download into an empty directory leaves behind can be read without a manifest:
      owned blocks are as published, and every other block is still a hole. */
  lemma FreshDownloadIsTrustworthy(f: FetchPartition.PartitionFetcher, files: map<nat, Bytes>, local: Local, published: Key -> Bytes)
    requires f.WellFormed() && f.Installed(files) && f.blockSize >= PROBE
    requires forall l: nat :: f.OthersUntouched(None, f.At(files, l), l)
    requires local == Local((l: nat) => f.At(files, l), {}, f.blockSize)
    requires forall l: nat, e: nat :: published(Key(l, e)) == f.published(l, e)
    ensures Trustworthy(local, f.layers, f.experts, published)
  {
    forall k: Key | k.layer < f.layers && k.expert < f.experts && local.Read(k).Some?
      ensures local.Read(k).value == published(k)
    {
      var l, e := k.layer, k.expert;
      assert f.LayerInstalled(f.At(files, l), l) && f.OthersUntouched(None, f.At(files, l), l);
      var file, holes := files[l], f.Base(None);
      assert f.Seen(file)[e] == FetchPartition.BlockOf(file, f.blockSize, e);
      if e in f.mine {
        assert f.Had(f.Seen(file), l, e);
      } else {
        assert f.Seen(file)[e] == f.Seen(holes)[e] == FetchPartition.BlockOf(holes, f.blockSize, e);
        HolesAreSeen(local, file, f.experts, e);
      }
    }
  }

  /** The keys a partition download of `f` writes into its manifest. */
  ghost function OwnedKeys(f: FetchPartition.PartitionFetcher): (keys: set<Key>)
    ensures forall k :: k in keys <==> k.layer < f.layers && k.expert in f.mine
  {
    set l, e | 0 <= l < f.layers && e in f.mine :: Key(l, e)
  }

  /** After a download, into whatever directory, a manifest of what this machine owns makes exactly
      the owned blocks local, each as published. */
  lemma ManifestIsTrustworthy(f: FetchPartition.PartitionFetcher, files: map<nat, Bytes>, local: Local, published: Key -> Bytes)
    requires f.WellFormed() && f.Installed(files) && f.mine != [] && f.layers > 0
    requires local == Local((l: nat) => f.At(files, l), OwnedKeys(f), f.blockSize)
    requires forall l: nat, e: nat :: published(Key(l, e)) == f.published(l, e)
    ensures Trustworthy(local, f.layers, f.experts, published)
    ensures forall k: Key :: k.layer < f.layers ==> (local.Read(k).Some? <==> k.expert in f.mine)
  {
    assert Key(0, f.mine[0]) in OwnedKeys(f);
    forall k: Key | k.layer < f.layers
      ensures local.Read(k).Some? <==> k.expert in f.mine
      ensures local.Read(k).Some? ==> local.Read(k).value == published(k)
    {
      ManifestDecides(local, k);
      assert f.LayerInstalled(f.At(files, k.layer), k.layer);
      if k.expert in f.mine {
        assert f.Had(f.Seen(files[k.layer]), k.layer, k.expert);
      }
    }
  }

  /** The ids among the first `n` that are not cached, each once, in order of appearance. */
  function Uncached(cached: set<Key>, layer: nat, ids: seq<nat>, n: nat): seq<nat>
    requires n <= |ids|
  {
    if n == 0 then []
    else
      var before := Uncached(cached, layer, ids, n - 1);
      if Key(layer, ids[n - 1]) in cached || ids[n - 1] in before then before else before + [ids[n - 1]]
  }

  lemma {:induction false} UncachedMembers(cached: set<Key>, layer: nat, ids: seq<nat>, n: nat)
    requires n <= |ids|
    ensures forall e :: e in Uncached(cached, layer, ids, n) <==> e in ids[..n] && Key(layer, e) !in cached
    ensures Distinct(Uncached(cached, layer, ids, n))
  {
    if n > 0 {
      UncachedMembers(cached, layer, ids, n - 1);
      TakeSnoc(ids, n - 1);
    }
  }

  /** How many reads the first `n` lookups submit: one for each that is neither cached nor in
      flight, also for an id that was submitted just before. */
  function Submissions(cached: set<Key>, layer: nat, futures: seq<nat>, ids: seq<nat>, n: nat): (c: nat)
    requires n <= |ids|
  {
    if n == 0 then 0
    else
      var again := Key(layer, ids[n - 1]) !in cached && ids[n - 1] !in futures;
      Submissions(cached, layer, futures, ids, n - 1) + if again then 1 else 0
  }

  /** No id that has to be read is asked for twice. */
  ghost predicate NoneRepeated(cached: set<Key>, layer: nat, futures: seq<nat>, ids: seq<nat>, n: nat) {
    n <= |ids| && forall j :: 0 <= j < n && Key(layer, ids[j]) !in cached && ids[j] !in futures ==> ids[j] !in ids[..j]
  }

  /** At least one read is submitted for each missing expert that is not in flight, and exactly one
      if and only if no such id is repeated. */
  lemma {:induction false} SubmittedOnce(cached: set<Key>, layer: nat, futures: seq<nat>, ids: seq<nat>, n: nat)
    requires n <= |ids|
    ensures var missing, c := Missed(cached, layer, futures, ids, n), Submissions(cached, layer, futures, ids, n);
      c >= |missing| && (c == |missing| <==> NoneRepeated(cached, layer, futures, ids, n))
  {
    if n > 0 {
      SubmittedOnce(cached, layer, futures, ids, n - 1);
      MissedOne(cached, layer, futures, ids, n - 1);
    }
  }

  /** The missing experts that are not in flight. */
  function Missed(cached: set<Key>, layer: nat, futures: seq<nat>, ids: seq<nat>, n: nat): seq<nat>
    requires n <= |ids|
  {
    Filter((e: nat) => e !in futures, Uncached(cached, layer, ids, n))
  }

  lemma MissedOne(cached: set<Key>, layer: nat, futures: seq<nat>, ids: seq<nat>, n: nat)
    requires n < |ids|
    ensures var first := Key(layer, ids[n]) !in cached && ids[n] !in ids[..n];
      Missed(cached, layer, futures, ids, n + 1)
        == Missed(cached, layer, futures, ids, n) + if first && ids[n] !in futures then [ids[n]] else []
  {
    UncachedMembers(cached, layer, ids, n);
    FilterSnoc((e: nat) => e !in futures, Uncached(cached, layer, ids, n), ids[n]);
  }

  /** The cache after the first `n` lookups, and after storing the first `n` experts. */
  function AfterGets(capacity: nat, s: Lru<Expert>, layer: nat, ids: seq<nat>, n: nat): Lru<Expert>
    requires n <= |ids|
  {
    if n == 0 then s else Step(capacity, AfterGets(capacity, s, layer, ids, n - 1), Op.Get(Key(layer, ids[n - 1])))
  }

  function AfterPuts(capacity: nat, s: Lru<Expert>, layer: nat, ids: seq<nat>, n: nat, content: Key -> Expert): Lru<Expert>
    requires n <= |ids|
  {
    if n == 0 then s
    else
      var k := Key(layer, ids[n - 1]);
      Step(capacity, AfterPuts(capacity, s, layer, ids, n - 1, content), Put(k, content(k)))
  }

  /** Of the first `n` prefetches, those that were not asked for, are not cached and did not
      fail are stored. */
  function AfterLeftovers(capacity: nat, s: Lru<Expert>, layer: nat, futures: seq<nat>, asked: seq<nat>, n: nat,
                          failed: nat -> bool, content: Key -> Expert): Lru<Expert>
    requires n <= |futures|
  {
    if n == 0 then s
    else
      var before := AfterLeftovers(capacity, s, layer, futures, asked, n - 1, failed, content);
      var k := Key(layer, futures[n - 1]);
      if futures[n - 1] !in asked && k !in before.data && !failed(futures[n - 1]) then Step(capacity, before, Put(k, content(k)))
      else before
  }

  /** Only prefetches that nobody asked for and that did not fail enter the cache that way, each with
      its own content, and while there is room all of them do and nothing leaves. */
  lemma {:induction false} LeftoversOnly(capacity: nat, s: Lru<Expert>, layer: nat, futures: seq<nat>, asked: seq<nat>, n: nat,
                                         failed: nat -> bool, content: Key -> Expert)
    requires n <= |futures| && capacity >= 1 && WellFormed(capacity, s)
    ensures var after := AfterLeftovers(capacity, s, layer, futures, asked, n, failed, content);
      && WellFormed(capacity, after) && |after.order| <= |s.order| + n && after.hits == s.hits && after.misses == s.misses
      && (forall k :: k in after.data && !(k in s.data && after.data[k] == s.data[k]) ==>
            Unasked(k, layer, futures[..n], asked, failed) && after.data[k] == content(k))
      && (|s.order| + n <= capacity ==>
            forall k :: k in s.data || Unasked(k, layer, futures[..n], asked, failed) ==> k in after.data)
  {
    if n > 0 {
      var before := AfterLeftovers(capacity, s, layer, futures, asked, n - 1, failed, content);
      var k := Key(layer, futures[n - 1]);
      LeftoversOnly(capacity, s, layer, futures, asked, n - 1, failed, content);
      TakeSnoc(futures, n - 1);
      if futures[n - 1] !in asked && k !in before.data && !failed(futures[n - 1]) {
        PutAdds(capacity, before, k, content(k));
      }
    }
  }

  ghost predicate Unasked(k: Key, layer: nat, futures: seq<nat>, asked: seq<nat>, failed: nat -> bool) {
    k.layer == layer && k.expert in futures && k.expert !in asked && !failed(k.expert)
  }

  /** How many of the first `n` experts are on disk. */
  function CountLocal(local: Local, layer: nat, ids: seq<nat>, n: nat): (c: nat)
    requires n <= |ids|
    ensures c <= n
  {
    if n == 0 then 0 else CountLocal(local, layer, ids, n - 1) + if local.Read(Key(layer, ids[n - 1])).Some? then 1 else 0
  }

  /** The experts that were there and the first `n` missing ones, each its own. */
  ghost predicate Gathered(all: map<nat, Expert>, there: set<nat>, layer: nat, missing: seq<nat>, n: nat, content: Key -> Expert) {
    && n <= |missing|
    && (forall e :: e in all <==> e in there || e in missing[..n])
    && (forall e :: e in all ==> all[e] == content(Key(layer, e)))
  }

  lemma GatherOne(all: map<nat, Expert>, there: set<nat>, layer: nat, missing: seq<nat>, n: nat, content: Key -> Expert)
    requires n < |missing| && Gathered(all, there, layer, missing, n, content)
    ensures Gathered(all[missing[n] := content(Key(layer, missing[n]))], there, layer, missing, n + 1, content)
  {
    TakeSnoc(missing, n);
  }

  class HFExpertReader {
    const local: Local
    const remote: Key -> Bytes          // blocks assembled from the checkpoint
    const parse: Bytes -> Expert
    const lru: LRUExpertCache<Expert>
    ghost const numLayers: nat
    ghost const numExperts: nat
    ghost const published: Key -> Bytes // the blocks of the model
    var prefetch: map<nat, seq<nat>>    // layer -> experts in flight, oldest first
    var submitted: nat                  // reads handed to the pool
    var readCount: nat
    var localHits: nat
    var hfReads: nat

    function Raw(k: Key): Bytes {
      if local.Read(k).Some? then local.Read(k).value else remote(k)
    }

    function Parsed(k: Key): Expert {
      parse(Raw(k))
    }

    /** Everything cached is the expert its key names. */
    ghost predicate Truthful()
      reads lru
    {
      forall k :: k in lru.cache ==> lru.cache[k] == Parsed(k)
    }

    /** Nothing in flight is cached. */
    ghost predicate Valid()
      reads this, lru
    {
      && lru.Valid() && Truthful()
      && forall l :: l in prefetch ==> Distinct(prefetch[l]) && forall e :: e in prefetch[l] ==> Key(l, e) !in lru.cache
    }

    /** The files and the checkpoint hold the model. */
    ghost predicate SourcesHoldModel() {
      && Trustworthy(local, numLayers, numExperts, published)
      && forall k: Key :: k.layer < numLayers && k.expert < numExperts ==> remote(k) == published(k)
    }

    constructor (local: Local, remote: Key -> Bytes, parse: Bytes -> Expert, cacheSize: nat,
                 ghost numLayers: nat, ghost numExperts: nat, ghost published: Key -> Bytes)
      requires cacheSize >= 1
      ensures Valid() && fresh(lru) && lru.cache == map[] && prefetch == map[] && submitted == readCount == localHits == hfReads == 0
      ensures this.local == local && this.remote == remote && this.parse == parse
      ensures this.numLayers == numLayers && this.numExperts == numExperts && this.published == published
    {
      this.local, this.remote, this.parse := local, remote, parse;
      this.numLayers, this.numExperts, this.published := numLayers, numExperts, published;
      lru := new LRUExpertCache(cacheSize);
      prefetch, submitted, readCount, localHits, hfReads := map[], 0, 0, 0, 0;
    }

    /** With trustworthy files and the checkpoint as published, whatever is read is the
        published block, local or not. */
    lemma RawIsPublished(k: Key)
      requires SourcesHoldModel() && k.layer < numLayers && k.expert < numExperts
      ensures Raw(k) == published(k)
    {
    }

    /** Each expert of the model is the parse of its published block. */
    ghost predicate Published(layer: nat, found: map<nat, Expert>) {
      forall e :: e in found && layer < numLayers && e < numExperts ==> found[e] == parse(published(Key(layer, e)))
    }

    lemma ParsedIsPublished(layer: nat, found: map<nat, Expert>)
      requires SourcesHoldModel() && forall e :: e in found ==> found[e] == Parsed(Key(layer, e))
      ensures Published(layer, found)
    {
      forall e | e in found && layer < numLayers && e < numExperts
        ensures found[e] == parse(published(Key(layer, e)))
      {
        RawIsPublished(Key(layer, e));
      }
    }

    method PrefetchExperts(layer: nat, ids: seq<nat>)
      requires Valid()
      modifies this`prefetch, this`submitted
      ensures Valid()
      ensures prefetch == old(prefetch)[layer :=
        ExpertReader.Launched(if layer in old(prefetch) then old(prefetch)[layer] else [], lru.cache.Keys, layer, ids, |ids|)]
      ensures submitted == old(submitted) + |prefetch[layer]| - if layer in old(prefetch) then |old(prefetch)[layer]| else 0
    {
      var futures := if layer in prefetch then prefetch[layer] else [];
      ghost var start := futures;
      for i := 0 to |ids|
        invariant prefetch == old(prefetch) && submitted == old(submitted) + |futures| - |start|
        invariant futures == ExpertReader.Launched(start, lru.cache.Keys, layer, ids, i)
      {
        var cached := lru.Contains(layer, ids[i]);
        if ids[i] !in futures && !cached {
          futures := futures + [ids[i]];
          submitted := submitted + 1;
        }
      }
      ExpertReader.LaunchedOnce(start, lru.cache.Keys, layer, ids, |ids|);
      prefetch := prefetch[layer := futures];
    }

    method ResetPrefetch()
      requires Valid()
      modifies this`prefetch
      ensures Valid() && prefetch == map[]
    {
      prefetch := map[];
    }

    /** The experts of a layer: cache hits first, then everything else, each its own parse. The
        cache afterwards is what the lookups, the missing experts and the leftover prefetches
        make of it; each missing expert is counted once, as local or remote. An id that is asked
        for again while it is missing is read again, unless it was in flight. */
    method GetExperts(layer: nat, ids: seq<nat>, failed: nat -> bool) returns (found: map<nat, Expert>)
      requires Valid()
      modifies this, lru
      ensures Valid()
      ensures forall e :: e in found <==> e in ids
      ensures forall e :: e in found ==> found[e] == Parsed(Key(layer, e))
      ensures SourcesHoldModel() ==> Published(layer, found)
      ensures prefetch == old(prefetch) - {layer} && readCount == old(readCount) + |ids|
      ensures var futures, missing := if layer in old(prefetch) then old(prefetch)[layer] else [],
                                      Uncached(old(lru.cache).Keys, layer, ids, |ids|);
        && lru.Value() == AfterLeftovers(lru.maxExperts,
             AfterPuts(lru.maxExperts, AfterGets(lru.maxExperts, old(lru.Value()), layer, ids, |ids|), layer, missing, |missing|, Parsed),
             layer, futures, missing, |futures|, failed, Parsed)
        && localHits == old(localHits) + CountLocal(local, layer, missing, |missing|)
        && localHits + hfReads == old(localHits + hfReads) + |missing|
        && submitted == old(submitted) + Submissions(old(lru.cache).Keys, layer, futures, ids, |ids|)
    {
      var futures := if layer in prefetch then prefetch[layer] else [];
      prefetch := prefetch - {layer};
      var missing;
      found, missing := Look(layer, ids, futures);
      UncachedMembers(old(lru.cache).Keys, layer, ids, |ids|);
      assert ids[..|ids|] == ids;
      assert missing[..|missing|] == missing;
      found := FetchMissing(layer, missing, found);
      if SourcesHoldModel() {
        ParsedIsPublished(layer, found);
      }
      StoreLeftovers(layer, futures, missing, failed);
      readCount := readCount + |ids|;
    }

    /** The experts among the first `n` ids that are cached. */
    ghost predicate Found(experts: map<nat, Expert>, cache: map<Key, Expert>, layer: nat, ids: seq<nat>, n: nat) {
      && n <= |ids| && (forall e :: e in experts <==> e in ids[..n] && Key(layer, e) in cache)
      && forall e :: e in experts ==> experts[e] == cache[Key(layer, e)]
    }

    lemma FoundOne(experts: map<nat, Expert>, cache: map<Key, Expert>, layer: nat, ids: seq<nat>, n: nat)
      requires n < |ids| && Found(experts, cache, layer, ids, n)
      ensures var k := Key(layer, ids[n]);
        Found(if k in cache then experts[ids[n] := cache[k]] else experts, cache, layer, ids, n + 1)
    {
      TakeSnoc(ids, n);
    }

    /** Look every id up; the uncached ones are collected once each. A read is submitted for each
        lookup that finds nothing cached or in flight. */
    method Look(layer: nat, ids: seq<nat>, futures: seq<nat>) returns (experts: map<nat, Expert>, missing: seq<nat>)
      requires Valid()
      modifies lru, this`submitted
      ensures Valid() && lru.cache == old(lru.cache)
      ensures lru.Value() == AfterGets(lru.maxExperts, old(lru.Value()), layer, ids, |ids|)
      ensures missing == Uncached(lru.cache.Keys, layer, ids, |ids|)
      ensures submitted == old(submitted) + Submissions(lru.cache.Keys, layer, futures, ids, |ids|)
      ensures forall e :: e in experts <==> e in ids && Key(layer, e) in lru.cache
      ensures forall e :: e in experts ==> experts[e] == Parsed(Key(layer, e))
    {
      experts, missing := map[], [];
      for i := 0 to |ids|
        invariant Valid() && lru.cache == old(lru.cache)
        invariant lru.Value() == AfterGets(lru.maxExperts, old(lru.Value()), layer, ids, i)
        invariant missing == Uncached(lru.cache.Keys, layer, ids, i)
        invariant submitted == old(submitted) + Submissions(lru.cache.Keys, layer, futures, ids, i)
        invariant Found(experts, lru.cache, layer, ids, i)
      {
        FoundOne(experts, lru.cache, layer, ids, i);
        var found := lru.Get(layer, ids[i]);
        if found.Some? {
          experts := experts[ids[i] := found.value];
        } else {
          if ids[i] !in futures {
            submitted := submitted + 1;
          }
          if ids[i] !in missing {
            missing := missing + [ids[i]];
          }
        }
      }
      assert ids[..|ids|] == ids;
    }

    /** Take the missing experts from disk or the checkpoint, and cache them. */
    method FetchMissing(layer: nat, missing: seq<nat>, experts: map<nat, Expert>) returns (all: map<nat, Expert>)
      requires Valid() && layer !in prefetch
      requires forall e :: e in experts ==> experts[e] == Parsed(Key(layer, e))
      modifies lru, this`localHits, this`hfReads
      ensures Valid()
      ensures lru.Value() == AfterPuts(lru.maxExperts, old(lru.Value()), layer, missing, |missing|, Parsed)
      ensures Gathered(all, experts.Keys, layer, missing, |missing|, Parsed)
      ensures localHits == old(localHits) + CountLocal(local, layer, missing, |missing|)
      ensures localHits + hfReads == old(localHits + hfReads) + |missing|
    {
      ghost var content, start, hits, both := Parsed, lru.Value(), localHits, localHits + hfReads;
      all := experts;
      for i := 0 to |missing|
        invariant Valid() && Fetched(start, hits, both, layer, missing, i, content)
        invariant Gathered(all, experts.Keys, layer, missing, i, content)
      {
        var data := FetchNext(start, hits, both, layer, missing, i, content);
        GatherOne(all, experts.Keys, layer, missing, i, content);
        all := all[missing[i] := data];
      }
    }

    method FetchNext(ghost start: Lru<Expert>, ghost hits: nat, ghost both: nat, layer: nat, missing: seq<nat>, n: nat,
                     ghost content: Key -> Expert) returns (data: Expert)
      requires Valid() && layer !in prefetch && n < |missing|
      requires Fetched(start, hits, both, layer, missing, n, content) && forall k: Key :: content(k) == Parsed(k)
      modifies lru, this`localHits, this`hfReads
      ensures Valid() && Fetched(start, hits, both, layer, missing, n + 1, content)
      ensures data == content(Key(layer, missing[n]))
    {
      data := FetchOne(layer, missing[n]);
    }

    /** Cache and counters after the first `n` missing experts. */
    ghost predicate Fetched(start: Lru<Expert>, hits: nat, both: nat, layer: nat, missing: seq<nat>, n: nat, content: Key -> Expert)
      reads this, lru
    {
      && n <= |missing| && lru.Value() == AfterPuts(lru.maxExperts, start, layer, missing, n, content)
      && localHits == hits + CountLocal(local, layer, missing, n) && localHits + hfReads == both + n
    }

    method FetchOne(layer: nat, eid: nat) returns (data: Expert)
      requires Valid() && layer !in prefetch
      modifies lru, this`localHits, this`hfReads
      ensures Valid() && data == Parsed(Key(layer, eid))
      ensures lru.Value() == Step(lru.maxExperts, old(lru.Value()), Put(Key(layer, eid), data))
      ensures localHits == old(localHits) + (if local.Read(Key(layer, eid)).Some? then 1 else 0)
      ensures localHits + hfReads == old(localHits + hfReads) + 1
    {
      var raw := local.Read(Key(layer, eid));
      if raw.Some? {
        data := parse(raw.value);
        localHits := localHits + 1;
      } else {
        data := parse(remote(Key(layer, eid)));
        hfReads := hfReads + 1;
      }
      lru.Put(layer, eid, data);
    }

    /** Prefetches nobody asked for go into the cache unless they failed or are there. */
    method StoreLeftovers(layer: nat, futures: seq<nat>, asked: seq<nat>, failed: nat -> bool)
      requires Valid() && layer !in prefetch
      modifies lru
      ensures Valid()
      ensures lru.Value() == AfterLeftovers(lru.maxExperts, old(lru.Value()), layer, futures, asked, |futures|, failed, Parsed)
    {
      for i := 0 to |futures|
        invariant Valid()
        invariant lru.Value() == AfterLeftovers(lru.maxExperts, old(lru.Value()), layer, futures, asked, i, failed, Parsed)
      {
        var cached := lru.Contains(layer, futures[i]);
        if futures[i] !in asked && !cached && !failed(futures[i]) {
          lru.Put(layer, futures[i], parse(Raw(Key(layer, futures[i]))));
        }
      }
    }
  }
}
