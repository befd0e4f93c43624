/**
 The expert reader over an SSD: LRU cache, prefetches in flight, and a victim buffer
 for speculative reads that were not used (no mixed-precision fallback configured).
 */
module ExpertReader {
  import opened Collections
  import opened Recency
  import opened ExpertCache

  type Raw = seq<int>
  type Expert = seq<int>

  /** How far a leftover prefetch got when its layer is computed. */
  datatype Completion = Read | ReadFailed | StillQueued

  /** Where an expert that is not cached comes from. */
  datatype Origin = FromVictim | FromPrefetch | FromDisk

  /** What a reader holds and has counted, as a value. */
  datatype Holdings = Holdings(cache: Option<Lru<Expert>>, victim: Lru<Expert>,
                               cacheHits: nat, victimHits: nat, prefetchHits: nat, diskReads: nat)

  function OriginOf(victim: Lru<Expert>, k: Key, futures: seq<nat>): Origin {
    if k in victim.data then FromVictim
    else if k.expert in futures then FromPrefetch
    else FromDisk
  }

  /** A request the cache could not answer: its origin is counted, a victim leaves its
      buffer, and the expert becomes the newest cache entry. */
  function AfterMiss(capacity: nat, h: Holdings, k: Key, data: Expert, futures: seq<nat>): Holdings {
    var origin := OriginOf(h.victim, k, futures);
    Holdings(
      if h.cache.None? then None else Some(Step(capacity, h.cache.value, Put(k, data))),
      if origin == FromVictim then Removed(h.victim, k) else h.victim,
      h.cacheHits,
      h.victimHits + if origin == FromVictim then 1 else 0,
      h.prefetchHits + if origin == FromPrefetch then 1 else 0,
      h.diskReads + if origin == FromDisk then 1 else 0)
  }

  function AfterOne(capacity: nat, h: Holdings, k: Key, data: Expert, futures: seq<nat>): Holdings {
    if h.cache.None? then AfterMiss(capacity, h, k, data, futures)
    else
      var looked := h.(cache := Some(Step(capacity, h.cache.value, Op.Get(k))));
      if k in h.cache.value.data then looked.(cacheHits := h.cacheHits + 1)
      else AfterMiss(capacity, looked, k, data, futures)
  }

  /** The first `n` requests of a call, one after the other. */
  function AfterAll(capacity: nat, h: Holdings, layer: nat, ids: seq<nat>, n: nat, futures: seq<nat>,
                    content: Key -> Expert): Holdings
    requires n <= |ids|
  {
    if n == 0 then h
    else
      var k := Key(layer, ids[n - 1]);
      AfterOne(capacity, AfterAll(capacity, h, layer, ids, n - 1, futures, content), k, content(k), futures)
  }

  /** Of the first `n` leftovers, those that finished enter the victim buffer in the
      order they were launched. */
  function Parked(cap: nat, victim: Lru<Expert>, layer: nat, ids: seq<nat>, futures: seq<nat>, n: nat,
                  completion: nat -> Completion, content: Key -> Expert): Lru<Expert>
    requires n <= |futures|
  {
    if n == 0 then victim
    else
      var rest := Parked(cap, victim, layer, ids, futures, n - 1, completion, content);
      var eid := futures[n - 1];
      if eid !in ids && completion(eid) == Read then Step(cap, rest, Put(Key(layer, eid), content(Key(layer, eid))))
      else rest
  }

  /** The first `n` requested experts of a layer, each with its own content, and no others. */
  ghost predicate Answers(experts: map<nat, Expert>, layer: nat, ids: seq<nat>, n: nat, content: Key -> Expert)
    requires n <= |ids|
  {
    && (forall j :: 0 <= j < n ==> ids[j] in experts)
    && (forall e :: e in experts ==> e in ids && experts[e] == content(Key(layer, e)))
  }

  lemma AnswersGrow(experts: map<nat, Expert>, layer: nat, ids: seq<nat>, n: nat, content: Key -> Expert)
    requires n < |ids| && Answers(experts, layer, ids, n, content)
    ensures Answers(experts[ids[n] := content(Key(layer, ids[n]))], layer, ids, n + 1, content)
  {
  }

  lemma {:induction false} OnlyRequestedEnter(capacity: nat, h: Holdings, layer: nat, ids: seq<nat>, n: nat,
                                             futures: seq<nat>, content: Key -> Expert)
    requires n <= |ids|
    ensures var h' := AfterAll(capacity, h, layer, ids, n, futures, content);
      && (h'.cache.None? <==> h.cache.None?)
      && (h.cache.Some? ==> forall k :: k in h'.cache.value.data ==>
            k in h.cache.value.data || (k.layer == layer && k.expert in ids))
  {
    if n > 0 {
      OnlyRequestedEnter(capacity, h, layer, ids, n - 1, futures, content);
    }
  }

  /** `pop` on an ordered dictionary. */
  function Removed(s: Lru<Expert>, k: Key): Lru<Expert> {
    s.(order := Without(s.order, k), data := s.data - {k})
  }

  lemma RemovedKeepsWellFormed(capacity: nat, s: Lru<Expert>, k: Key)
    requires WellFormed(capacity, s)
    ensures WellFormed(capacity, Removed(s, k))
  {
    WithoutKeeps(s.order, k);
  }

  /** Appending first and trimming the front afterwards is a store that evicts first. */
  lemma AppendThenTrim(capacity: nat, s: Lru<Expert>, k: Key, v: Expert)
    requires capacity >= 1 && WellFormed(capacity, s)
    ensures var long, data := Touch(s.order, k), s.data[k := v];
      && long != [] && |long| <= capacity + 1
      && Step(capacity, s, Put(k, v))
         == if |long| > capacity then s.(order := long[1..], data := data - {long[0]}) else s.(order := long, data := data)
  {
    TouchKeeps(s.order, k);
    if k !in s.order && s.order != [] {
      assert (s.order + [k])[1..] == s.order[1..] + [k];
      assert s.order[0] in s.order;
      assert s.data[k := v] - {s.order[0]} == (s.data - {s.order[0]})[k := v];
    }
    assert s.data - {} == s.data;
  }

  /** What is in flight after launching the first `n` ids, oldest first. */
  function Launched(pending: seq<nat>, cached: set<Key>, layer: nat, ids: seq<nat>, n: nat): seq<nat>
    requires n <= |ids|
  {
    if n == 0 then pending
    else
      var before := Launched(pending, cached, layer, ids, n - 1);
      if ids[n - 1] in before || Key(layer, ids[n - 1]) in cached then before else before + [ids[n - 1]]
  }

  /** Launching keeps what was in flight, adds exactly the ids that are neither cached nor in
      flight, and launches nothing twice. */
  lemma {:induction false} LaunchedOnce(pending: seq<nat>, cached: set<Key>, layer: nat, ids: seq<nat>, n: nat)
    requires n <= |ids| && Distinct(pending)
    ensures var after := Launched(pending, cached, layer, ids, n);
      && Distinct(after) && pending <= after
      && forall e :: e in after <==> e in pending || (e in ids[..n] && Key(layer, e) !in cached)
  {
    if n > 0 {
      LaunchedOnce(pending, cached, layer, ids, n - 1);
      TakeSnoc(ids, n - 1);
    }
  }

  class MoEExpertReader {
    const disk: Key -> Raw          // the block at an expert's fixed offset
    const parse: Raw -> Expert
    const lru: LRUExpertCache?<Expert>
    const victimCap: nat
    var prefetch: map<nat, seq<nat>>  // layer -> experts in flight, oldest first
    var victim: Lru<Expert>           // the victim buffer; it keeps no counters
    var readCount: nat
    var cacheHits: nat
    var prefetchHits: nat
    var victimHits: nat
    ghost var diskReads: nat

    function OnDisk(key: Key): Expert {
      parse(disk(key))
    }

    ghost function Repr(): set<object> {
      if lru == null then {this} else {this, lru}
    }

    ghost function Cached(): map<Key, Expert>
      reads Repr()
    {
      if lru == null then map[] else lru.cache
    }

    /** Everything held is the expert its key names. */
    ghost predicate Truthful(held: map<Key, Expert>) {
      forall k :: k in held ==> held[k] == OnDisk(k)
    }

    /** Nothing in flight is already cached. */
    ghost predicate PrefetchSound()
      reads Repr()
    {
      forall l :: l in prefetch ==> Distinct(prefetch[l]) && forall e :: e in prefetch[l] ==> Key(l, e) !in Cached()
    }

    /** Every read is accounted for once. */
    ghost predicate Balanced()
      reads this
    {
      readCount == cacheHits + victimHits + prefetchHits + diskReads
    }

    ghost predicate Sound()
      reads Repr()
    {
      && (lru != null ==> lru.Valid())
      && victimCap >= 16 && WellFormed(victimCap, victim)
      && Truthful(Cached()) && Truthful(victim.data)
      && (forall k :: k in victim.data ==> k !in Cached())
      && PrefetchSound()
    }

    ghost predicate Valid()
      reads Repr()
    {
      Sound() && Balanced()
    }

    constructor (disk: Key -> Raw, parse: Raw -> Expert, cacheSize: nat)
      ensures Valid() && fresh(Repr())
      ensures this.disk == disk && this.parse == parse
      ensures Cached() == map[] && prefetch == map[] && victim.data == map[] && readCount == 0
      ensures lru == null <==> cacheSize == 0
      ensures lru != null ==> lru.maxExperts == cacheSize
      ensures victimCap == if cacheSize / 16 > 16 then cacheSize / 16 else 16
      ensures victim == Lru([], map[], 0, 0) && cacheHits == prefetchHits == victimHits == 0
    {
      this.disk, this.parse := disk, parse;
      if cacheSize > 0 {
        lru := new LRUExpertCache(cacheSize);
      } else {
        lru := null;
      }
      victimCap := if cacheSize > 0 && cacheSize / 16 > 16 then cacheSize / 16 else 16;
      prefetch, victim := map[], Lru([], map[], 0, 0);
      readCount, cacheHits, prefetchHits, victimHits, diskReads := 0, 0, 0, 0, 0;
    }

    /** Launch reads for what is neither cached nor in flight; repeat calls merge. */
    method PrefetchExperts(layer: nat, ids: seq<nat>)
      requires Valid()
      modifies this`prefetch
      ensures Valid()
      ensures prefetch == old(prefetch)[layer :=
        Launched(if layer in old(prefetch) then old(prefetch)[layer] else [], Cached().Keys, layer, ids, |ids|)]
    {
      var pending := if layer in prefetch then prefetch[layer] else [];
      ghost var start := pending;
      var i := 0;
      while i < |ids|
        invariant 0 <= i <= |ids| && prefetch == old(prefetch)
        invariant pending == Launched(start, Cached().Keys, layer, ids, i)
      {
        var eid := ids[i];
        var cached := false;
        if lru != null {
          cached := lru.Contains(layer, eid);
        }
        if eid !in pending && !cached {
          pending := pending + [eid];
        }
        i := i + 1;
      }
      LaunchedOnce(start, Cached().Keys, layer, ids, |ids|);
      prefetch := prefetch[layer := pending];
    }

    method ResetPrefetch()
      requires Valid()
      modifies this`prefetch
      ensures Valid() && prefetch == map[]
    {
      prefetch := map[];
    }

    /** An expert that is not cached: victim buffer, then prefetch, then disk. */
    method TakeUncached(key: Key, futures: seq<nat>) returns (data: Expert)
      requires Truthful(victim.data) && WellFormed(victimCap, victim)
      modifies this`victim, this`victimHits, this`prefetchHits, this`diskReads
      ensures data == OnDisk(key)
      ensures var origin := OriginOf(old(victim), key, futures);
        && victim == (if origin == FromVictim then Removed(old(victim), key) else old(victim))
        && victimHits == old(victimHits) + (if origin == FromVictim then 1 else 0)
        && prefetchHits == old(prefetchHits) + (if origin == FromPrefetch then 1 else 0)
        && diskReads == old(diskReads) + (if origin == FromDisk then 1 else 0)
      ensures WellFormed(victimCap, victim) && key !in victim.data
    {
      if key in victim.data {
        data := victim.data[key];
        RemovedKeepsWellFormed(victimCap, victim, key);
        victim := Removed(victim, key);
        victimHits := victimHits + 1;
      } else if key.expert in futures {
        data := parse(disk(key));
        prefetchHits := prefetchHits + 1;
      } else {
        data := parse(disk(key));
        diskReads := diskReads + 1;
      }
    }

    function Capacity(): nat {
      if lru == null then 1 else lru.maxExperts
    }

    ghost function Held(): Holdings
      reads Repr()
    {
      Holdings(if lru == null then None else Some(lru.Value()), victim, cacheHits, victimHits, prefetchHits, diskReads)
    }

    /** One requested expert of a layer whose futures were taken. */
    method GetOne(layer: nat, eid: nat, futures: seq<nat>) returns (data: Expert)
      requires Valid() && layer !in prefetch
      modifies Repr()
      ensures Valid() && data == OnDisk(Key(layer, eid)) && prefetch == old(prefetch)
      ensures readCount == old(readCount) + 1
      ensures Held() == AfterOne(Capacity(), old(Held()), Key(layer, eid), data, futures)
    {
      readCount := readCount + 1;
      if lru != null {
        var cached := lru.Get(layer, eid);
        if cached.Some? {
          cacheHits := cacheHits + 1;
          return cached.value;
        }
      }
      data := Load(layer, eid, futures);
    }

    /** Load an expert that is not cached, and cache it. */
    method Load(layer: nat, eid: nat, futures: seq<nat>) returns (data: Expert)
      requires Sound() && layer !in prefetch && Key(layer, eid) !in Cached()
      modifies Repr()
      ensures Sound() && data == OnDisk(Key(layer, eid)) && prefetch == old(prefetch)
      ensures Held() == AfterMiss(Capacity(), old(Held()), Key(layer, eid), data, futures)
      ensures readCount == old(readCount)
    {
      data := TakeUncached(Key(layer, eid), futures);
      if lru != null {
        lru.Put(layer, eid, data);
      }
    }

    /** A finished read nobody asked for goes to the victim buffer, never to the cache. */
    method Park(key: Key)
      requires WellFormed(victimCap, victim) && victimCap >= 1 && Truthful(victim.data)
      modifies this`victim
      ensures victim == Step(victimCap, old(victim), Put(key, OnDisk(key)))
      ensures WellFormed(victimCap, victim) && Truthful(victim.data)
    {
      StepKeepsWellFormed(victimCap, victim, Put(key, OnDisk(key)));
      AppendThenTrim(victimCap, victim, key, OnDisk(key));
      var order, data := TrimFront(victimCap, Touch(victim.order, key), victim.data[key := parse(disk(key))]);
      victim := victim.(order := order, data := data);
    }

    /** Park the finished leftovers of a layer, drop the others. */
    method ParkLeftovers(layer: nat, ids: seq<nat>, futures: seq<nat>, completion: nat -> Completion)
      requires Valid()
      requires forall e :: e in futures && e !in ids ==> Key(layer, e) !in Cached()
      modifies this`victim
      ensures Valid()
      ensures victim == Parked(victimCap, old(victim), layer, ids, futures, |futures|, completion, OnDisk)
    {
      var i := 0;
      while i < |futures|
        invariant 0 <= i <= |futures| && Valid()
        invariant victim == Parked(victimCap, old(victim), layer, ids, futures, i, completion, OnDisk)
      {
        var eid := futures[i];
        assert eid in futures;
        if eid !in ids && completion(eid) == Read {
          Park(Key(layer, eid));
        }
        i := i + 1;
      }
    }

    /** The experts of a layer. Each is the parse of its own block; what is held and
        counted afterwards is what the requests and then the leftovers make of it. */
    method GetExperts(layer: nat, ids: seq<nat>, completion: nat -> Completion) returns (experts: map<nat, Expert>)
      requires Valid()
      modifies Repr()
      ensures Valid()
      ensures forall e :: e in experts <==> e in ids
      ensures forall e :: e in experts ==> experts[e] == OnDisk(Key(layer, e))
      ensures readCount == old(readCount) + |ids|
      ensures prefetch == old(prefetch) - {layer}
      ensures var futures := if layer in old(prefetch) then old(prefetch)[layer] else [];
        var asked := AfterAll(Capacity(), old(Held()), layer, ids, |ids|, futures, OnDisk);
        Held() == asked.(victim := Parked(victimCap, asked.victim, layer, ids, futures, |futures|, completion, OnDisk))
    {
      var futures := if layer in prefetch then prefetch[layer] else [];
      prefetch := prefetch - {layer};
      ghost var before := Held();
      experts := AskAll(layer, ids, futures);
      OnlyRequestedEnter(Capacity(), before, layer, ids, |ids|, futures, OnDisk);
      ParkLeftovers(layer, ids, futures, completion);
    }

    /** Answer the requests one after the other. */
    method AskAll(layer: nat, ids: seq<nat>, futures: seq<nat>) returns (experts: map<nat, Expert>)
      requires Valid() && layer !in prefetch
      modifies Repr()
      ensures Valid() && prefetch == old(prefetch) && readCount == old(readCount) + |ids|
      ensures Answers(experts, layer, ids, |ids|, OnDisk)
      ensures Held() == AfterAll(Capacity(), old(Held()), layer, ids, |ids|, futures, OnDisk)
    {
      experts := map[];
      ghost var h := Held();
      var i := 0;
      while i < |ids|
        invariant 0 <= i <= |ids| && Valid()
        invariant prefetch == old(prefetch) && readCount == old(readCount) + i
        invariant Answers(experts, layer, ids, i, OnDisk)
        invariant Held() == h == AfterAll(Capacity(), old(Held()), layer, ids, i, futures, OnDisk)
      {
        var eid := ids[i];
        var data := GetOne(layer, eid, futures);
        h := AfterOne(Capacity(), h, Key(layer, eid), data, futures);
        AnswersGrow(experts, layer, ids, i, OnDisk);
        experts := experts[eid := data];
        i := i + 1;
      }
    }
  }

  /** `popitem(last=False)` until the buffer fits. */
  method TrimFront(capacity: nat, order: seq<Key>, data: map<Key, Expert>) returns (order': seq<Key>, data': map<Key, Expert>)
    requires |order| <= capacity + 1
    ensures if |order| > capacity then order' == order[1..] && data' == data - {order[0]} else order' == order && data' == data
  {
    order', data' := order, data;
    while |order'| > capacity
      invariant (order' == order && data' == data) || (|order| > capacity && order' == order[1..] && data' == data - {order[0]})
    {
      data', order' := data' - {order'[0]}, order'[1..];
    }
  }

  /** An expert that was asked for is the newest cache entry, wherever it was found, and
      is counted exactly once. */
  lemma RequestedIsNewest(capacity: nat, h: Holdings, k: Key, data: Expert, futures: seq<nat>)
    requires capacity >= 1 && (h.cache.Some? ==> WellFormed(capacity, h.cache.value))
    ensures var h' := AfterOne(capacity, h, k, data, futures);
      && h'.cacheHits + h'.victimHits + h'.prefetchHits + h'.diskReads
         == h.cacheHits + h.victimHits + h.prefetchHits + h.diskReads + 1
      && (h'.cache.None? <==> h.cache.None?)
      && (h'.cache.Some? ==>
            var s := h'.cache.value;
            WellFormed(capacity, s) && s.order != [] && s.order[|s.order| - 1] == k && k in s.data)
  {
    if h.cache.Some? {
      var s := h.cache.value;
      StepKeepsWellFormed(capacity, s, Op.Get(k));
      StepKeepsWellFormed(capacity, Step(capacity, s, Op.Get(k)), Put(k, data));
      PutOrderKeeps(capacity, s.order, k);
    }
  }

  /** Where a request is answered from: the cache before the victim buffer, that before a prefetch,
      and the disk last. A victim that is used leaves its buffer; other victims stay. */
  lemma RequestIsCounted(capacity: nat, h: Holdings, k: Key, data: Expert, futures: seq<nat>)
    requires h.cache.Some? ==> WellFormed(capacity, h.cache.value)
    ensures var h', cached := AfterOne(capacity, h, k, data, futures), h.cache.Some? && k in h.cache.value.data;
      var parked := k in h.victim.data;
      && h'.cacheHits == h.cacheHits + (if cached then 1 else 0)
      && h'.victimHits == h.victimHits + (if !cached && parked then 1 else 0)
      && h'.prefetchHits == h.prefetchHits + (if !cached && !parked && k.expert in futures then 1 else 0)
      && h'.diskReads == h.diskReads + (if !cached && !parked && k.expert !in futures then 1 else 0)
    ensures var h', cached := AfterOne(capacity, h, k, data, futures), h.cache.Some? && k in h.cache.value.data;
      && (cached ==> h'.victim == h.victim)
      && (!cached ==> h'.victim.data == h.victim.data - {k} && forall x :: x in h'.victim.order <==> x in h.victim.order && (x != k || k !in h.victim.data))
  {
    WithoutKeeps(h.victim.order, k);
    assert k !in h.victim.data ==> h.victim.data - {k} == h.victim.data;
  }

  /** A read that finished and nobody asked for. */
  ghost predicate Leftover(k: Key, layer: nat, ids: seq<nat>, futures: seq<nat>, completion: nat -> Completion) {
    k.layer == layer && k.expert in futures && k.expert !in ids && completion(k.expert) == Read
  }

  lemma OneMoreLeftover(x: Key, layer: nat, ids: seq<nat>, futures: seq<nat>, n: nat, completion: nat -> Completion)
    requires 0 < n <= |futures|
    ensures Leftover(x, layer, ids, futures[..n], completion)
       <==> Leftover(x, layer, ids, futures[..n - 1], completion)
            || (x == Key(layer, futures[n - 1]) && Finished(futures[n - 1], ids, completion))
  {
    TakeSnoc(futures, n - 1);
  }

  predicate Finished(e: nat, ids: seq<nat>, completion: nat -> Completion) {
    e !in ids && completion(e) == Read
  }

  lemma {:induction false} ParkedFits(cap: nat, victim: Lru<Expert>, layer: nat, ids: seq<nat>, futures: seq<nat>, n: nat,
                                      completion: nat -> Completion, content: Key -> Expert)
    requires n <= |futures| && cap >= 1 && WellFormed(cap, victim)
    ensures var after := Parked(cap, victim, layer, ids, futures, n, completion, content);
      WellFormed(cap, after) && |after.order| <= |victim.order| + n
  {
    if n > 0 {
      var k := Key(layer, futures[n - 1]);
      ParkedFits(cap, victim, layer, ids, futures, n - 1, completion, content);
      PutAdds(cap, Parked(cap, victim, layer, ids, futures, n - 1, completion, content), k, content(k));
    }
  }

  /** Only such reads enter the victim buffer, each with its own content. */
  lemma {:induction false} ParkedAreLeftovers(cap: nat, victim: Lru<Expert>, layer: nat, ids: seq<nat>, futures: seq<nat>, n: nat,
                                              completion: nat -> Completion, content: Key -> Expert, x: Key)
    requires n <= |futures| && cap >= 1 && WellFormed(cap, victim)
    requires x in Parked(cap, victim, layer, ids, futures, n, completion, content).data
    ensures var after := Parked(cap, victim, layer, ids, futures, n, completion, content);
      || (x in victim.data && after.data[x] == victim.data[x])
      || (Leftover(x, layer, ids, futures[..n], completion) && after.data[x] == content(x))
  {
    if n > 0 {
      var before, k := Parked(cap, victim, layer, ids, futures, n - 1, completion, content), Key(layer, futures[n - 1]);
      ParkedFits(cap, victim, layer, ids, futures, n - 1, completion, content);
      OneMoreLeftover(x, layer, ids, futures, n, completion);
      if Finished(futures[n - 1], ids, completion) {
        PutAdds(cap, before, k, content(k));
      }
      if x in before.data {
        ParkedAreLeftovers(cap, victim, layer, ids, futures, n - 1, completion, content, x);
      }
    }
  }

  /** While there is room all of them do, and no victim leaves. */
  lemma {:induction false} LeftoversAreParked(cap: nat, victim: Lru<Expert>, layer: nat, ids: seq<nat>, futures: seq<nat>, n: nat,
                                              completion: nat -> Completion, content: Key -> Expert, x: Key)
    requires n <= |futures| && cap >= 1 && WellFormed(cap, victim) && |victim.order| + n <= cap
    requires x in victim.data || Leftover(x, layer, ids, futures[..n], completion)
    ensures x in Parked(cap, victim, layer, ids, futures, n, completion, content).data
  {
    if n > 0 {
      var before, k := Parked(cap, victim, layer, ids, futures, n - 1, completion, content), Key(layer, futures[n - 1]);
      ParkedFits(cap, victim, layer, ids, futures, n - 1, completion, content);
      OneMoreLeftover(x, layer, ids, futures, n, completion);
      if Finished(futures[n - 1], ids, completion) {
        PutAdds(cap, before, k, content(k));
      }
      if x in victim.data || Leftover(x, layer, ids, futures[..n - 1], completion) {
        LeftoversAreParked(cap, victim, layer, ids, futures, n - 1, completion, content, x);
      }
    }
  }
}
