/**
 Splitting a checkpoint into pinned weights and one file per expert layer, shard by shard,
 while shards are deleted as they are consumed. Loaded tensors are lazy: they are read from
 their file when they are used, so the file must still be there and unchanged.
 */
module Preprocess {
  import opened Collections

  /** Tensors an expert layer consists of. */
  const NAMES: nat := 9

  type Tensor = seq<bv8>

  datatype Key = Expert(layer: nat, name: nat) | NGram(id: string) | Pinned(id: string)

  type Contents = map<Key, Tensor>

  datatype File = Shard(i: nat) | Carry(gen: nat) | Part(i: nat)

  type Disk = map<File, Contents>

  /** A tensor that has been loaded but not read. */
  datatype Lazy = Lazy(file: File, key: Key)

  predicate Backed(disk: Disk, z: Lazy) {
    z.file in disk && z.key in disk[z.file]
  }

  /** What reading a lazy tensor gives now. */
  function Value(disk: Disk, z: Lazy): Tensor
    requires Backed(disk, z)
  {
    disk[z.file][z.key]
  }

  /** Every tensor of the first `n` shards. */
  function Found(shards: seq<Contents>, n: nat): Contents
    requires n <= |shards|
  {
    if n == 0 then map[] else Found(shards, n - 1) + shards[n - 1]
  }

  /** No tensor is in two shards. */
  ghost predicate Disjoint(shards: seq<Contents>) {
    forall i, j, k :: 0 <= i < j < |shards| && k in shards[i] ==> k !in shards[j]
  }

  ghost predicate WellNamed(shards: seq<Contents>) {
    forall i, k :: 0 <= i < |shards| && k in shards[i] && k.Expert? ==> k.name < NAMES
  }

  lemma {:induction false} FoundIn(shards: seq<Contents>, n: nat, k: Key)
    requires n <= |shards|
    ensures k in Found(shards, n) <==> exists i :: 0 <= i < n && k in shards[i]
  {
    if n > 0 {
      FoundIn(shards, n - 1, k);
    }
  }

  /** With disjoint shards a tensor keeps the value of the one shard that has it. */
  lemma {:induction false} FoundIsOwn(shards: seq<Contents>, n: nat, i: nat, k: Key)
    requires Disjoint(shards) && i < n <= |shards| && k in shards[i]
    ensures k in Found(shards, n) && Found(shards, n)[k] == shards[i][k]
  {
    if i < n - 1 {
      FoundIsOwn(shards, n - 1, i, k);
    }
  }

  lemma NewInShard(shards: seq<Contents>, n: nat, k: Key)
    requires Disjoint(shards) && n < |shards| && k in shards[n]
    ensures k !in Found(shards, n)
  {
    FoundIn(shards, n, k);
  }

  predicate Complete(all: Contents, layer: nat) {
    forall n: nat :: n < NAMES ==> Expert(layer, n) in all
  }

  /** The tensors of a layer, by name. */
  function LayerOf(all: Contents, layer: nat): map<nat, Tensor> {
    map n: nat | n < NAMES && Expert(layer, n) in all :: all[Expert(layer, n)]
  }

  /** The names of a layer among some keys. */
  function Names(keys: set<Key>, layer: nat): set<nat> {
    set n: nat | n < NAMES && Expert(layer, n) in keys
  }

  lemma {:induction false} SubsetCard(s: set<nat>, n: nat)
    requires forall x :: x in s ==> x < n
    ensures |s| <= n && (|s| == n ==> forall x: nat :: x < n ==> x in s)
  {
    if n > 0 {
      SubsetCard(s - {n - 1}, n - 1);
      assert n - 1 in s ==> s == (s - {n - 1}) + {n - 1};
      assert n - 1 !in s ==> s == s - {n - 1};
    }
  }

  lemma {:induction false} FullCard(s: set<nat>, n: nat)
    requires forall x: nat :: x in s <==> x < n
    ensures |s| == n
  {
    if n > 0 {
      FullCard(s - {n - 1}, n - 1);
      assert s == (s - {n - 1}) + {n - 1};
    } else {
      assert s == {};
    }
  }

  /** Counting the tensors of a layer tells whether it is complete. */
  lemma CountTells(keys: set<Key>, layer: nat)
    ensures |Names(keys, layer)| <= NAMES
    ensures |Names(keys, layer)| == NAMES <==> forall n: nat :: n < NAMES ==> Expert(layer, n) in keys
  {
    SubsetCard(Names(keys, layer), NAMES);
    var names := Names(keys, layer);
    assert forall n: nat :: n < NAMES ==> (n in names <==> Expert(layer, n) in keys);
    if forall n: nat :: n < NAMES ==> Expert(layer, n) in keys {
      FullCard(names, NAMES);
    }
  }

  /** The pending tensors are exactly the found expert tensors of unfinished layers, and
      reading any of them gives the tensor that was found. */
  ghost predicate Tracks(pending: map<Key, Lazy>, disk: Disk, all: Contents, done: set<nat>) {
    && (forall k :: k in pending <==> k.Expert? && k in all && k.layer !in done)
    && (forall k :: k in pending ==> Backed(disk, pending[k]) && Value(disk, pending[k]) == all[k])
  }

  /** A finished layer's file holds the layer's own tensors. */
  ghost predicate Written(layers: map<nat, map<nat, Tensor>>, all: Contents, done: set<nat>) {
    && layers.Keys == done
    && (forall l :: l in done ==> Complete(all, l) && layers[l] == LayerOf(all, l))
  }

  /** The layers in the log are the finished ones, each written once. */
  ghost predicate Once(log: seq<nat>, done: set<nat>) {
    Distinct(log) && forall l :: l in log <==> l in done
  }

  /** The pending tensors of other layers. */
  function Without(pending: map<Key, Lazy>, layer: nat): map<Key, Lazy> {
    map k | k in pending && !(k.Expert? && k.layer == layer) :: pending[k]
  }

  lemma FinishedTracks(pending: map<Key, Lazy>, disk: Disk, all: Contents, done: set<nat>, layer: nat)
    requires Tracks(pending, disk, all, done)
    ensures Tracks(Without(pending, layer), disk, all, done + {layer})
  {
  }

  lemma FinishedWritten(layers: map<nat, map<nat, Tensor>>, all: Contents, done: set<nat>, layer: nat)
    requires Written(layers, all, done) && Complete(all, layer)
    ensures Written(layers[layer := LayerOf(all, layer)], all, done + {layer})
  {
    var after := layers[layer := LayerOf(all, layer)];
    assert after.Keys == done + {layer};
    forall l | l in done + {layer}
      ensures Complete(all, l) && after[l] == LayerOf(all, l)
    {
      assert l != layer ==> l in done && after[l] == layers[l];
    }
  }

  lemma FinishedOnce(log: seq<nat>, done: set<nat>, layer: nat)
    requires Once(log, done) && layer !in done
    ensures Once(log + [layer], done + {layer})
  {
    assert forall i :: 0 <= i < |log| ==> log[i] in log;
  }

  function ExpertRefs(c: Contents, i: nat): map<Key, Lazy> {
    map k | k in c && k.Expert? :: Lazy(Shard(i), k)
  }

  function PinnedRefs(c: Contents, i: nat): map<Key, Lazy> {
    map k | k in c && k.Pinned? :: Lazy(Shard(i), k)
  }

  function PinnedOf(c: Contents): Contents {
    map k | k in c && k.Pinned? :: c[k]
  }

  function NGramsOf(c: Contents): Contents {
    map k | k in c && k.NGram? :: c[k]
  }

  lemma PlusUpdate<K, V>(a: map<K, V>, b: map<K, V>, k: K, v: V)
    ensures (a + b)[k := v] == a + b[k := v]
  {
  }

  /** One more tensor goes to exactly one of the three places. */
  lemma OneMoreTensor(c: Contents, k: Key, v: Tensor, i: nat)
    ensures ExpertRefs(c[k := v], i) == if k.Expert? then ExpertRefs(c, i)[k := Lazy(Shard(i), k)] else ExpertRefs(c, i)
    ensures PinnedRefs(c[k := v], i) == if k.Pinned? then PinnedRefs(c, i)[k := Lazy(Shard(i), k)] else PinnedRefs(c, i)
    ensures NGramsOf(c[k := v]) == if k.NGram? then NGramsOf(c)[k := v] else NGramsOf(c)
  {
  }

  /** The three places a shard's tensors go to. */
  datatype Piles = Piles(pending: map<Key, Lazy>, ngrams: Contents, pinned: map<Key, Lazy>)

  function Put(p: Piles, i: nat, k: Key, v: Tensor): Piles {
    match k
    case Expert(_, _) => p.(pending := p.pending[k := Lazy(Shard(i), k)])
    case NGram(_) => p.(ngrams := p.ngrams[k := v])
    case Pinned(_) => p.(pinned := p.pinned[k := Lazy(Shard(i), k)])
  }

  /** All tensors of `part` put where they belong. */
  function PutAll(pending: map<Key, Lazy>, ngrams: Contents, part: Contents, i: nat): Piles {
    Piles(pending + ExpertRefs(part, i), ngrams + NGramsOf(part), PinnedRefs(part, i))
  }

  lemma PutOne(pending: map<Key, Lazy>, ngrams: Contents, part: Contents, i: nat, k: Key, v: Tensor)
    ensures PutAll(pending, ngrams, part[k := v], i) == Put(PutAll(pending, ngrams, part, i), i, k, v)
  {
    OneMoreTensor(part, k, v, i);
    PlusUpdate(pending, ExpertRefs(part, i), k, Lazy(Shard(i), k));
    PlusUpdate(ngrams, NGramsOf(part), k, v);
  }

  lemma PutNone(pending: map<Key, Lazy>, ngrams: Contents, i: nat)
    ensures PutAll(pending, ngrams, map[], i) == Piles(pending, ngrams, map[])
  {
  }

  /** `part` is `w` without the keys of `todo`. */
  ghost predicate Rest(part: Contents, w: Contents, todo: set<Key>) {
    && todo <= w.Keys
    && (forall k :: k in part <==> k in w && k !in todo)
    && (forall k :: k in part ==> part[k] == w[k])
  }

  lemma RestStep(part: Contents, w: Contents, todo: set<Key>, k: Key)
    requires Rest(part, w, todo) && k in todo
    ensures Rest(part[k := w[k]], w, todo - {k})
  {
  }

  lemma RestDone(part: Contents, w: Contents)
    requires Rest(part, w, {})
    ensures part == w
  {
  }

  /** The finished layers are the complete ones. */
  ghost predicate DoneIsComplete(all: Contents, done: set<nat>) {
    forall l: nat :: l in done <==> Complete(all, l)
  }

  /** The tensors of the next shard are all new, and none belongs to a finished layer. */
  lemma NextShardIsNew(shards: seq<Contents>, i: nat, done: set<nat>)
    requires Disjoint(shards) && WellNamed(shards) && i < |shards| && DoneIsComplete(Found(shards, i), done)
    ensures forall k :: k in shards[i] ==> k !in Found(shards, i)
    ensures forall k :: k in shards[i] && k.Expert? ==> k.layer !in done
  {
    forall k | k in shards[i]
      ensures k !in Found(shards, i)
    {
      NewInShard(shards, i, k);
    }
    forall k | k in shards[i] && k.Expert?
      ensures k.layer !in done
    {
      assert k == Expert(k.layer, k.name) && k.name < NAMES;
    }
  }

  lemma IngestTracks(pending: map<Key, Lazy>, disk: Disk, all: Contents, done: set<nat>, more: Contents, i: nat)
    requires Tracks(pending, disk, all, done) && Shard(i) in disk && disk[Shard(i)] == more
    requires forall k :: k in more && k.Expert? ==> k.layer !in done
    requires forall k :: k in more ==> k !in all
    ensures Tracks(pending + ExpertRefs(more, i), disk, all + more, done)
  {
  }

  /** New tensors do not change what a finished layer consists of. */
  lemma IngestWritten(layers: map<nat, map<nat, Tensor>>, all: Contents, done: set<nat>, more: Contents)
    requires Written(layers, all, done) && forall k :: k in more ==> k !in all
    ensures Written(layers, all + more, done)
  {
    forall l | l in done
      ensures Complete(all + more, l) && layers[l] == LayerOf(all + more, l)
    {
      SameLayer(all, more, l);
    }
  }

  lemma SameLayer(all: Contents, more: Contents, layer: nat)
    requires Complete(all, layer) && forall k :: k in more ==> k !in all
    ensures Complete(all + more, layer) && LayerOf(all + more, layer) == LayerOf(all, layer)
  {
    forall n: nat | n < NAMES
      ensures Expert(layer, n) in all + more && (all + more)[Expert(layer, n)] == all[Expert(layer, n)]
    {
    }
  }

  /** After a shard's tensors were sorted the pending ones are those of all shards so far. */
  lemma IngestKeeps(shards: seq<Contents>, i: nat, disk: Disk, pending: map<Key, Lazy>,
                    layers: map<nat, map<nat, Tensor>>, done: set<nat>)
    requires Disjoint(shards) && WellNamed(shards) && i < |shards| && DoneIsComplete(Found(shards, i), done)
    requires Tracks(pending, disk, Found(shards, i), done) && Written(layers, Found(shards, i), done)
    requires Shard(i) in disk && disk[Shard(i)] == shards[i]
    ensures Tracks(pending + ExpertRefs(shards[i], i), disk, Found(shards, i + 1), done)
    ensures Written(layers, Found(shards, i + 1), done)
    ensures NGramsOf(Found(shards, i)) + NGramsOf(shards[i]) == NGramsOf(Found(shards, i + 1))
  {
    var all := Found(shards, i);
    NextShardIsNew(shards, i, done);
    IngestTracks(pending, disk, all, done, shards[i], i);
    IngestWritten(layers, all, done, shards[i]);
  }

  /** Changing files that no pending tensor lives in changes nothing for them. */
  lemma OtherFilesTrack(pending: map<Key, Lazy>, disk: Disk, disk': Disk, all: Contents, done: set<nat>)
    requires Tracks(pending, disk, all, done)
    requires forall k :: k in pending ==> pending[k].file in disk' && disk'[pending[k].file] == disk[pending[k].file]
    ensures Tracks(pending, disk', all, done)
  {
    forall k | k in pending
      ensures Backed(disk', pending[k]) && Value(disk', pending[k]) == all[k]
    {
      assert Backed(disk, pending[k]);
    }
  }

  function Reloaded(pending: map<Key, Lazy>, file: File): map<Key, Lazy> {
    map k | k in pending :: Lazy(file, k)
  }

  /** Saving the pending tensors and loading them back keeps their values. */
  lemma CarryTracks(pending: map<Key, Lazy>, disk: Disk, disk': Disk, all: Contents, done: set<nat>, file: File)
    requires Tracks(pending, disk, all, done)
    requires file in disk' && disk'[file] == map k | k in pending :: Value(disk, pending[k])
    ensures Tracks(Reloaded(pending, file), disk', all, done)
  {
  }

  ghost predicate Fewer(before: map<Key, Lazy>, after: map<Key, Lazy>) {
    forall k :: k in after ==> k in before && after[k] == before[k]
  }

  /** Where a pending tensor may live between shards: the carry file in use, or a shard that
      is kept. */
  predicate Home(file: File, deleteShards: bool, carryGen: nat) {
    if deleteShards then file == Carry((carryGen + 1) % 2) else file.Shard?
  }

  ghost predicate LiveAtHome(pending: map<Key, Lazy>, deleteShards: bool, carryGen: nat) {
    forall k :: k in pending ==> Home(pending[k].file, deleteShards, carryGen)
  }

  /** While shard `i` is processed, its tensors live in it. */
  ghost predicate LiveHereOrAtHome(pending: map<Key, Lazy>, deleteShards: bool, carryGen: nat, i: nat) {
    forall k :: k in pending ==> pending[k].file == Shard(i) || Home(pending[k].file, deleteShards, carryGen)
  }

  lemma IngestHomes(pending: map<Key, Lazy>, more: Contents, deleteShards: bool, carryGen: nat, i: nat)
    requires LiveAtHome(pending, deleteShards, carryGen)
    ensures LiveHereOrAtHome(pending + ExpertRefs(more, i), deleteShards, carryGen, i)
  {
  }

  lemma FewerHomes(before: map<Key, Lazy>, after: map<Key, Lazy>, deleteShards: bool, carryGen: nat, i: nat)
    requires LiveHereOrAtHome(before, deleteShards, carryGen, i) && Fewer(before, after)
    ensures LiveHereOrAtHome(after, deleteShards, carryGen, i)
  {
  }

  class Preprocessor {
    const shards: seq<Contents>       // in processing order, expert tensors stacked
    const deleteShards: bool
    const repo: bool                  // missing shards can be downloaded
    var disk: Disk
    var pending: map<Key, Lazy>       // expert tensors waiting for their layer
    var done: set<nat>                // layers written
    var carryGen: nat
    var layers: map<nat, map<nat, Tensor>>
    var log: seq<nat>                 // layer writes, in order
    var ngrams: Contents

    constructor (shards: seq<Contents>, deleteShards: bool, repo: bool, disk: Disk)
      ensures this.shards == shards && this.deleteShards == deleteShards && this.repo == repo && this.disk == disk
      ensures pending == map[] && done == {} && carryGen == 0 && layers == map[] && log == [] && ngrams == map[]
    {
      this.shards, this.deleteShards, this.repo, this.disk := shards, deleteShards, repo, disk;
      pending, done, carryGen, layers, log, ngrams := map[], {}, 0, map[], [], map[];
    }

    /** Write a file from lazy tensors. They are read while it is written, so none of them may
        live in the file itself. */
    method Save(file: File, refs: map<Key, Lazy>)
      requires forall k :: k in refs ==> Backed(disk, refs[k]) && refs[k].file != file
      modifies this`disk
      ensures disk == old(disk)[file := map k | k in refs :: Value(old(disk), refs[k])]
    {
      disk := disk[file := map k | k in refs :: Value(disk, refs[k])];
    }

    /** Delete a file. No pending tensor may live in it. */
    method Remove(file: File)
      requires forall k :: k in pending ==> pending[k].file != file
      modifies this`disk
      ensures disk == old(disk) - {file}
    {
      disk := disk - {file};
    }

    /** Write one layer, unless its file is there already. */
    method WriteLayer(layer: nat, ghost all: Contents)
      requires Tracks(pending, disk, all, done) && layer !in done && Complete(all, layer)
      modifies this`layers, this`log
      ensures layer in old(layers) ==> layers == old(layers) && log == old(log)
      ensures layer !in old(layers) ==> log == old(log) + [layer] && layers == old(layers)[layer := LayerOf(all, layer)]
    {
      assert forall n: nat :: n < NAMES ==> Expert(layer, n) in pending;
      if layer in layers {
        return;
      }
      layers := layers[layer := map n: nat | n < NAMES :: Value(disk, pending[Expert(layer, n)])];
      assert layers[layer] == LayerOf(all, layer);
      log := log + [layer];
    }

    /** Write a complete layer and forget its tensors. */
    method FinishLayer(layer: nat, ghost all: Contents)
      requires Tracks(pending, disk, all, done) && Written(layers, all, done) && Once(log, done)
      requires layer !in done && Complete(all, layer)
      modifies this`layers, this`log, this`done, this`pending
      ensures Tracks(pending, disk, all, done) && Written(layers, all, done) && Once(log, done)
      ensures done == old(done) + {layer}
      ensures pending == Without(old(pending), layer)
    {
      FinishedTracks(pending, disk, all, done, layer);
      FinishedWritten(layers, all, done, layer);
      FinishedOnce(log, done, layer);
      WriteLayer(layer, all);
      done := done + {layer};
      pending := Without(pending, layer);
    }

    /** The layers still to be looked at include every pending one that is complete. */
    ghost predicate LooksAt(todo: set<nat>, all: Contents)
      reads this
    {
      forall k :: k in pending && k.Expert? ==> k.layer in todo || !Complete(all, k.layer)
    }

    /** Write every pending layer that has become complete. The source takes them in
        increasing order; any order will do. */
    method FlushLayers(ghost all: Contents)
      requires Tracks(pending, disk, all, done) && Written(layers, all, done) && Once(log, done)
      modifies this`layers, this`log, this`done, this`pending
      ensures Tracks(pending, disk, all, done) && Written(layers, all, done) && Once(log, done)
      ensures forall l: nat :: l in done <==> Complete(all, l)
      ensures Fewer(old(pending), pending)
    {
      var todo := set k | k in pending :: k.layer;
      while todo != {}
        invariant Tracks(pending, disk, all, done) && Written(layers, all, done) && Once(log, done)
        invariant Fewer(old(pending), pending) && LooksAt(todo, all)
        decreases |todo|
      {
        var layer :| layer in todo;
        todo := todo - {layer};
        PendingCounts(layer, all);
        if layer !in done && |Names(pending.Keys, layer)| == NAMES {
          FinishLayer(layer, all);
        }
      }
      forall l: nat | Complete(all, l)
        ensures l in done
      {
        assert Expert(l, 0) in all;
        assert Expert(l, 0) in pending || l in done;
      }
    }

    lemma PendingCounts(layer: nat, all: Contents)
      requires Tracks(pending, disk, all, done)
      ensures layer !in done ==> (|Names(pending.Keys, layer)| == NAMES <==> Complete(all, layer))
    {
      CountTells(pending.Keys, layer);
      assert forall n: nat :: Expert(layer, n) in pending.Keys <==> Expert(layer, n) in all && layer !in done;
    }

    /** Sort a shard's tensors: experts wait for their layer, n-gram tensors go to their own
        files at once, the rest is pinned. */
    method Ingest(i: nat) returns (pinned: map<Key, Lazy>)
      requires Shard(i) in disk
      modifies this`pending, this`ngrams
      ensures Piles(pending, ngrams, pinned) == PutAll(old(pending), old(ngrams), disk[Shard(i)], i)
    {
      var w := disk[Shard(i)];
      var todo := w.Keys;
      ghost var part: Contents := map[];
      var piles := Piles(pending, ngrams, map[]);
      PutNone(pending, ngrams, i);
      while todo != {}
        invariant Rest(part, w, todo) && piles == PutAll(old(pending), old(ngrams), part, i)
        decreases |todo|
      {
        var k :| k in todo;
        RestStep(part, w, todo, k);
        todo := todo - {k};
        PutOne(old(pending), old(ngrams), part, i, k, w[k]);
        piles := Put(piles, i, k, Value(disk, Lazy(Shard(i), k)));
        part := part[k := w[k]];
      }
      RestDone(part, w);
      pending, ngrams, pinned := piles.pending, piles.ngrams, piles.pinned;
    }

    /** Round-trip the pending tensors through the carry file that is not in use, and delete
        the other one. */
    method CarryOver(i: nat, ghost all: Contents)
      requires Tracks(pending, disk, all, done)
      requires deleteShards && LiveHereOrAtHome(pending, deleteShards, carryGen, i)
      modifies this`disk, this`pending, this`carryGen
      ensures Tracks(pending, disk, all, done)
      ensures LiveAtHome(pending, deleteShards, carryGen)
      ensures OneCarry(old(disk), old(carryGen)) ==> OneCarry(disk, carryGen)
      ensures forall f: File :: !f.Carry? ==> (f in disk <==> f in old(disk)) && (f in disk ==> disk[f] == old(disk)[f])
    {
      if pending.Keys == {} {
        return;
      }
      var newCarry, oldCarry := Carry(carryGen % 2), Carry((carryGen + 1) % 2);
      Save(newCarry, pending);
      CarryTracks(pending, old(disk), disk, all, done, newCarry);
      pending := Reloaded(pending, newCarry);
      ghost var before := disk;
      if oldCarry in disk {
        Remove(oldCarry);
      }
      OtherFilesTrack(pending, before, disk, all, done);
      carryGen := carryGen + 1;
    }

    /** At most one carry file is on disk: the one pending tensors were saved to last. */
    ghost predicate OneCarry(disk: Disk, gen: nat) {
      forall g: nat :: Carry(g) in disk ==> g == (gen + 1) % 2
    }

    /** Layers, log and n-gram files are as they should be once all of `all` has been seen. */
    ghost predicate Settled(all: Contents)
      reads this
    {
      && Tracks(pending, disk, all, done) && Written(layers, all, done) && Once(log, done)
      && DoneIsComplete(all, done) && ngrams == NGramsOf(all)
    }

    /** What belongs into a part file after `i` shards. */
    function PartAfter(i: nat, j: nat): Contents
      requires i <= |shards|
    {
      if j < i then PinnedOf(shards[j]) else map[]
    }

    /** The pinned tensors of the first `i` shards are in their part files. */
    ghost predicate PartsUpTo(disk: Disk, i: nat) {
      i <= |shards| && forall j: nat :: PartIs(disk, j, PartAfter(i, j))
    }

    /** A part file exists when there is something in it. */
    ghost predicate PartIs(disk: Disk, j: nat, c: Contents) {
      if Part(j) in disk then disk[Part(j)] == c && c != map[] else c == map[]
    }

    /** Shards still on disk are intact; the processed ones are kept or deleted as asked. */
    ghost predicate ShardsUpTo(disk: Disk, i: nat) {
      && (forall j: nat :: j < |shards| && Shard(j) in disk ==> disk[Shard(j)] == shards[j])
      && (forall j: nat :: j < |shards| && j < i ==> (Shard(j) in disk <==> !deleteShards))
    }

    /** Between shards, pending tensors live in the carry file in use, or in a kept shard. */
    ghost predicate Boundary(i: nat)
      reads this
    {
      && Disjoint(shards) && WellNamed(shards) && i <= |shards|
      && Settled(Found(shards, i)) && PartsUpTo(disk, i) && ShardsUpTo(disk, i)
      && LiveAtHome(pending, deleteShards, carryGen) && OneCarry(disk, carryGen)
    }

    /** While a shard is processed: as between shards, but its tensors may live in it, and its
        part file may be missing. */
    ghost predicate Processing(i: nat)
      reads this
    {
      && Disjoint(shards) && WellNamed(shards) && i < |shards| && Shard(i) in disk
      && Settled(Found(shards, i + 1)) && ShardsUpTo(disk, i)
      && LiveHereOrAtHome(pending, deleteShards, carryGen, i) && OneCarry(disk, carryGen)
    }

    /** Every shard is on disk or not, as it was. */
    ghost predicate SameShards(before: Disk, after: Disk) {
      forall j: nat :: Shard(j) in after <==> Shard(j) in before
    }

    /** Take in the next shard and write the layers it completes. */
    method Absorb(i: nat) returns (pinned: map<Key, Lazy>)
      requires Boundary(i) && i < |shards| && Shard(i) in disk
      modifies this`pending, this`ngrams, this`layers, this`log, this`done
      ensures Processing(i) && pinned == PinnedRefs(shards[i], i)
    {
      IngestKeeps(shards, i, disk, pending, layers, done);
      pinned := Ingest(i);
      IngestHomes(old(pending), shards[i], deleteShards, carryGen, i);
      ghost var ingested := pending;
      FlushLayers(Found(shards, i + 1));
      FewerHomes(ingested, pending, deleteShards, carryGen, i);
    }

    /** Save the shard's pinned tensors while the shard is still there. */
    method SavePart(i: nat, pinned: map<Key, Lazy>)
      requires Processing(i) && PartsUpTo(disk, i) && pinned == PinnedRefs(shards[i], i)
      modifies this`disk
      ensures Processing(i) && PartsUpTo(disk, i + 1) && SameShards(old(disk), disk)
    {
      if pinned.Keys != {} {
        Save(Part(i), pinned);
        assert disk[Part(i)] == PinnedOf(shards[i]);
        OtherFilesTrack(pending, old(disk), disk, Found(shards, i + 1), done);
        var k :| k in pinned;
        assert k in PinnedOf(shards[i]);
      } else {
        assert PinnedOf(shards[i]).Keys == {};
      }
      ghost var next := i + 1;
      forall j: nat
        ensures PartIs(disk, j, PartAfter(next, j))
      {
        assert PartIs(old(disk), j, PartAfter(i, j));
      }
    }

    /** Let go of a shard and delete it. */
    method Release(i: nat)
      requires Processing(i) && PartsUpTo(disk, i + 1) && deleteShards
      modifies this`disk, this`pending, this`carryGen
      ensures Boundary(i + 1)
      ensures forall j: nat :: j != i ==> (Shard(j) in disk <==> Shard(j) in old(disk))
    {
      ghost var all := Found(shards, i + 1);
      CarryOver(i, all);
      ghost var before := disk;
      Remove(Shard(i));
      OtherFilesTrack(pending, before, disk, all, done);
    }

    /** One shard: nothing that is still needed lives in a file when it is deleted or
        overwritten, and the next shard finds everything in order. */
    method ProcessShard(i: nat)
      requires Boundary(i) && i < |shards| && Shard(i) in disk
      modifies this
      ensures Boundary(i + 1)
      ensures forall j: nat :: j > i ==> (Shard(j) in disk <==> Shard(j) in old(disk))
    {
      var pinned := Absorb(i);
      SavePart(i, pinned);
      if deleteShards {
        Release(i);
      }
    }

    /** The part files together, later ones over earlier ones. */
    method MergePinned() returns (pinned: Contents)
      requires Disjoint(shards) && PartsUpTo(disk, |shards|)
      ensures pinned == PinnedOf(Found(shards, |shards|))
    {
      pinned := map[];
      for j := 0 to |shards|
        invariant pinned == PinnedOf(Found(shards, j))
      {
        assert PartIs(disk, j, PartAfter(|shards|, j));
        PinnedOfPlus(Found(shards, j), shards[j]);
        if Part(j) in disk {
          pinned := pinned + disk[Part(j)];
        }
      }
    }

    /** A whole run from a clean directory. It fails only when a shard is missing and cannot be
        fetched; otherwise every complete layer is written once with its own tensors, no other
        layer is, every pinned key reaches the merged file, every n-gram tensor its own, and
        the shards are deleted or left intact as asked. */
    method Run() returns (ok: bool, pinned: Contents)
      requires Disjoint(shards) && WellNamed(shards)
      requires pending == map[] && done == {} && layers == map[] && log == [] && ngrams == map[]
      requires forall f :: f in disk ==> f.Shard? && f.i < |shards| && disk[f] == shards[f.i]
      modifies this
      ensures !ok ==> !repo && exists j: nat :: j < |shards| && Shard(j) !in old(disk)
      ensures ok ==> var all := Found(shards, |shards|);
        && (forall l: nat :: l in layers <==> Complete(all, l))
        && (forall l: nat :: l in layers ==> layers[l] == LayerOf(all, l))
        && Distinct(log) && (forall l :: l in log <==> l in layers)
        && pinned == PinnedOf(all) && ngrams == NGramsOf(all)
      ensures ok ==> forall f: File :: f in disk ==> f.Shard?
      ensures ok ==> forall j: nat :: j < |shards| ==>
        if deleteShards then Shard(j) !in disk else Shard(j) in disk && disk[Shard(j)] == shards[j]
    {
      pinned := map[];
      NothingComplete();
      for i := 0 to |shards|
        invariant Boundary(i)
        invariant forall j: nat :: j >= i ==> (Shard(j) in disk <==> Shard(j) in old(disk))
      {
        assert PartIs(disk, i, PartAfter(i, i));
        if Shard(i) in disk || Part(i) !in disk {
          if Shard(i) !in disk {
            if !repo {
              return false, pinned;
            }
            Download(i);
          }
          ProcessShard(i);
        }
      }
      pinned := Finish();
      ok := true;
    }

    /** After the last shard: tensors of incomplete layers are dropped, the carry files go, the
        pinned tensors are merged. */
    method Finish() returns (pinned: Contents)
      requires Boundary(|shards|)
      modifies this
      ensures var all := Found(shards, |shards|);
        && Written(layers, all, done) && Once(log, done) && DoneIsComplete(all, done) && ngrams == NGramsOf(all)
        && pinned == PinnedOf(all)
      ensures ShardsUpTo(disk, |shards|) && SameShards(old(disk), disk)
      ensures forall f: File :: f in disk ==> f.Shard?
    {
      FlushLayers(Found(shards, |shards|));
      pending := map[];
      DropCarries();
      pinned := MergePinned();
      DropParts();
    }

    method DropParts()
      requires ShardsUpTo(disk, |shards|) && forall f: File :: f in disk ==> !f.Carry?
      modifies this`disk
      ensures ShardsUpTo(disk, |shards|) && SameShards(old(disk), disk) && forall f: File :: f in disk ==> f.Shard?
    {
      disk := map f | f in disk && !f.Part? :: disk[f];
    }

    method DropCarries()
      requires pending == map[] && PartsUpTo(disk, |shards|) && ShardsUpTo(disk, |shards|) && OneCarry(disk, carryGen)
      modifies this`disk
      ensures PartsUpTo(disk, |shards|) && ShardsUpTo(disk, |shards|) && SameShards(old(disk), disk)
      ensures forall f: File :: f in disk ==> !f.Carry?
    {
      ghost var before := disk;
      Remove(Carry(0));
      Remove(Carry(1));
      PartsStay(before, disk);
    }

    lemma PartsStay(before: Disk, after: Disk)
      requires PartsUpTo(before, |shards|)
      requires forall j: nat :: (Part(j) in after <==> Part(j) in before) && (Part(j) in after ==> after[Part(j)] == before[Part(j)])
      ensures PartsUpTo(after, |shards|)
    {
      ghost var n := |shards|;
      forall j: nat
        ensures PartIs(after, j, PartAfter(n, j))
      {
        assert PartIs(before, j, PartAfter(n, j));
      }
    }

    method Download(i: nat)
      requires Boundary(i) && i < |shards| && Shard(i) !in disk
      modifies this`disk
      ensures Boundary(i) && disk == old(disk)[Shard(i) := shards[i]]
    {
      disk := disk[Shard(i) := shards[i]];
      OtherFilesTrack(pending, old(disk), disk, Found(shards, i), done);
    }
  }

  lemma NothingComplete()
    ensures DoneIsComplete(map[], {})
  {
    var none: Contents := map[];
    forall l: nat
      ensures !Complete(none, l)
    {
      assert Expert(l, 0) !in none;
    }
  }

  lemma PinnedOfPlus(a: Contents, b: Contents)
    ensures PinnedOf(a + b) == PinnedOf(a) + PinnedOf(b)
  {
  }
}
