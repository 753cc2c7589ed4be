/**
  In cache-only mode active expiry cannot be observed by readers: a run with `ExpireShard`
  steps anywhere gives every read the same reply as the run without them.
 */
module ActiveExpiry {
  import opened Prelude
  import opened Shards
  import opened Capacity
  import opened ShardRuns
  import opened TtlMap

  /** Cache-only metadata: marks are the versions of the entries, and nothing is pending. */
  ghost predicate Bare(sh: Shard) {
    && sh.tombs == map[] && sh.pending == map[]
    && (forall k :: k in sh.marks <==> k in sh.entries)
    && (forall k :: k in sh.entries ==> sh.marks[k] == sh.entries[k].version)
  }

  ghost predicate Fit(sh: Shard) {
    ShardOk(sh) && Bare(sh)
  }

  /** `active` is `lazy` without some entries that have expired by `now`. */
  ghost predicate Behind(lazy: Shard, active: Shard, now: real) {
    && active.capacity == lazy.capacity
    && (forall k :: k in active.entries ==> k in lazy.entries && lazy.entries[k] == active.entries[k])
    && (forall k :: k in lazy.entries && k !in active.entries ==> Expired(lazy.entries[k], now))
    && active.order == Keep(lazy.order, active.entries.Keys)
    && active.stats.hits == lazy.stats.hits && active.stats.misses == lazy.stats.misses
  }

  ghost predicate Lagging(lazy: Shard, active: Shard, now: real) {
    Fit(lazy) && Fit(active) && Behind(lazy, active, now)
  }

  lemma Later(lazy: Shard, active: Shard, now: real, now': real)
    requires Lagging(lazy, active, now) && now <= now'
    ensures Lagging(lazy, active, now')
  {
  }

  // ---------------------------------------------------------------- removal

  lemma FitRemove(sh: Shard, k: Key)
    requires Fit(sh)
    ensures Fit(Remove(sh, k, Expire))
    ensures Remove(sh, k, Expire).entries.Keys == sh.entries.Keys - {k}
    ensures Remove(sh, k, Expire).stats.hits == sh.stats.hits && Remove(sh, k, Expire).stats.misses == sh.stats.misses
  {
  }

  lemma RemoveFromActive(lazy: Shard, active: Shard, now: real, k: Key)
    requires Lagging(lazy, active, now) && k in active.entries && Expired(active.entries[k], now)
    ensures Lagging(lazy, Remove(active, k, Expire), now)
  {
    FitRemove(active, k);
    KeepWithout(lazy.order, k, active.entries.Keys);
  }

  lemma RemoveFromLazy(lazy: Shard, active: Shard, now: real, k: Key)
    requires Lagging(lazy, active, now) && k in lazy.entries && k !in active.entries
    ensures Lagging(Remove(lazy, k, Expire), active, now)
  {
    FitRemove(lazy, k);
    KeepWithout(lazy.order, k, active.entries.Keys);
    assert active.entries.Keys - {k} == active.entries.Keys;
  }

  lemma {:induction false} RemoveAllFromActive(lazy: Shard, active: Shard, now: real, ks: seq<Key>)
    requires Lagging(lazy, active, now) && NoDup(ks)
    requires forall k :: k in ks ==> k in active.entries && Expired(active.entries[k], now)
    ensures Lagging(lazy, RemoveAll(active, ks, Expire), now)
    decreases |ks|
  {
    if ks != [] {
      RemoveFromActive(lazy, active, now, ks[0]);
      RemoveAllFromActive(lazy, Remove(active, ks[0], Expire), now, ks[1..]);
    }
  }

  lemma {:induction false} RemoveAllFromLazy(lazy: Shard, active: Shard, now: real, ks: seq<Key>)
    requires Lagging(lazy, active, now) && NoDup(ks)
    requires forall k :: k in ks ==> k in lazy.entries && k !in active.entries
    ensures Lagging(RemoveAll(lazy, ks, Expire), active, now)
    decreases |ks|
  {
    if ks != [] {
      RemoveFromLazy(lazy, active, now, ks[0]);
      RemoveAllFromLazy(Remove(lazy, ks[0], Expire), active, now, ks[1..]);
    }
  }

  lemma ExpireActive(lazy: Shard, active: Shard, now: real)
    requires Lagging(lazy, active, now)
    ensures Lagging(lazy, ExpireAll(active, now), now)
    ensures forall k :: k in ExpireAll(active, now).entries ==> !Expired(active.entries[k], now)
  {
    var ks := ExpiredKeys(active, now);
    KeepNoDup(active.order, set k | k in active.entries && Expired(active.entries[k], now));
    RemoveAllFromActive(lazy, active, now, ks);
  }

  lemma ExpireBoth(lazy: Shard, active: Shard, now: real)
    requires Lagging(lazy, active, now)
    ensures Lagging(ExpireAll(lazy, now), ExpireAll(active, now), now)
  {
    ExpireActive(lazy, active, now);
    var active' := ExpireAll(active, now);
    KeepNoDup(lazy.order, set k | k in lazy.entries && Expired(lazy.entries[k], now));
    RemoveAllFromLazy(lazy, active', now, ExpiredKeys(lazy, now));
  }

  lemma LazyExpireBoth(lazy: Shard, active: Shard, now: real, k: Key)
    requires Lagging(lazy, active, now)
    ensures Lagging(LazyExpire(lazy, k, now), LazyExpire(active, k, now), now)
    ensures k in LazyExpire(lazy, k, now).entries <==> k in LazyExpire(active, k, now).entries
  {
    if k in active.entries && Expired(active.entries[k], now) {
      RemoveFromActive(lazy, active, now, k);
    }
    if k in lazy.entries && Expired(lazy.entries[k], now) {
      RemoveFromLazy(lazy, LazyExpire(active, k, now), now, k);
    }
  }

  // ---------------------------------------------------------------- reads

  lemma ReadBoth(lazy: Shard, active: Shard, now: real, k: Key, touch: bool)
    requires Lagging(lazy, active, now)
    ensures Read(lazy, k, touch, now).0 == Read(active, k, touch, now).0
    ensures Lagging(Read(lazy, k, touch, now).1, Read(active, k, touch, now).1, now)
  {
    LazyExpireBoth(lazy, active, now, k);
    TouchBoth(LazyExpire(lazy, k, now), LazyExpire(active, k, now), now, k, touch);
    ReadAfterExpiry(lazy, k, touch, now);
    ReadAfterExpiry(active, k, touch, now);
  }

  /** Lazy expiry first, then the read proper. */
  lemma ReadAfterExpiry(sh: Shard, k: Key, touch: bool, now: real)
    ensures Read(sh, k, touch, now) == Read(LazyExpire(sh, k, now), k, touch, now)
  {
  }

  function TouchedEntry(e: Entry, touch: bool, now: real): Entry {
    if touch then e.(lastAccessedAt := now, hitCount := e.hitCount + 1) else e
  }

  /** `r` is `sh` after a read of `k`, which is not an expired key. */
  ghost predicate Touched(sh: Shard, r: Shard, k: Key, touch: bool, now: real) {
    && r.entries.Keys == sh.entries.Keys && r.order == sh.order && r.capacity == sh.capacity
    && (forall j :: j in sh.entries && j != k ==> r.entries[j] == sh.entries[j])
    && (k in sh.entries ==> r.entries[k] == TouchedEntry(sh.entries[k], touch, now))
    && r.stats.hits == sh.stats.hits + (if k in sh.entries then 1 else 0)
    && r.stats.misses == sh.stats.misses + (if k in sh.entries then 0 else 1)
  }

  lemma FitRead(sh: Shard, k: Key, touch: bool, now: real)
    requires Fit(sh) && (k in sh.entries ==> !Expired(sh.entries[k], now))
    ensures Fit(Read(sh, k, touch, now).1) && Touched(sh, Read(sh, k, touch, now).1, k, touch, now)
  {
    ReadOk(sh, k, touch, now);
    ReadTouches(sh, k, touch, now);
  }

  lemma ReadTouches(sh: Shard, k: Key, touch: bool, now: real)
    requires k in sh.entries ==> !Expired(sh.entries[k], now)
    ensures var r := Read(sh, k, touch, now).1;
            && Touched(sh, r, k, touch, now)
            && r.marks == sh.marks && r.tombs == sh.tombs && r.pending == sh.pending
            && (k in sh.entries ==> r.entries[k].version == sh.entries[k].version)
  {
  }

  lemma TouchedBehind(lazy: Shard, active: Shard, now: real, k: Key, touch: bool, lazy': Shard, active': Shard)
    requires Behind(lazy, active, now) && (k in lazy.entries <==> k in active.entries)
    requires Touched(lazy, lazy', k, touch, now) && Touched(active, active', k, touch, now)
    ensures Behind(lazy', active', now)
  {
  }

  lemma TouchBoth(lazy: Shard, active: Shard, now: real, k: Key, touch: bool)
    requires Lagging(lazy, active, now) && (k in lazy.entries <==> k in active.entries)
    requires k in lazy.entries ==> !Expired(lazy.entries[k], now)
    ensures Read(lazy, k, touch, now).0 == Read(active, k, touch, now).0
    ensures Lagging(Read(lazy, k, touch, now).1, Read(active, k, touch, now).1, now)
  {
    FitRead(lazy, k, touch, now);
    FitRead(active, k, touch, now);
    TouchedBehind(lazy, active, now, k, touch, Read(lazy, k, touch, now).1, Read(active, k, touch, now).1);
  }

  lemma {:induction false} KeepKeep(s: seq<Key>, a: set<Key>, b: set<Key>)
    requires forall x :: x in s && x in b ==> x in a
    ensures Keep(Keep(s, a), b) == Keep(s, b)
  {
    if s != [] {
      KeepKeep(s[1..], a, b);
      if s[0] in a { assert Keep(s, a)[1..] == Keep(s[1..], a); }
    }
  }

  lemma DumpBoth(lazy: Shard, active: Shard, now: real)
    requires Lagging(lazy, active, now)
    ensures Dump(lazy, now) == Dump(active, now)
  {
    assert Unexpired(lazy, now) == Unexpired(active, now);
    var ks := Keep(lazy.order, Unexpired(lazy, now));
    KeepKeep(lazy.order, active.entries.Keys, Unexpired(lazy, now));
    SnapshotsAgree(lazy, active, ks, now);
  }

  lemma SnapshotsAgree(a: Shard, b: Shard, ks: seq<Key>, now: real)
    requires forall k :: k in ks ==> k in a.entries && k in b.entries && a.entries[k] == b.entries[k]
    ensures Snapshots(a, ks, now) == Snapshots(b, ks, now)
  {
  }

  // ---------------------------------------------------------------- writes

  lemma FitStore(sh: Shard, k: Key, v: Value, ttl: TtlArg, now: real, defaultTtl: Option<real>)
    requires Fit(sh) && |Store(sh, k, v, ttl, now, CacheOnly, defaultTtl).order| <= sh.capacity
    ensures Fit(Store(sh, k, v, ttl, now, CacheOnly, defaultTtl))
  {
  }

  /** Both runs give the key the same new entry: same version, same deadline, same hit count. */
  lemma SameEntry(lazy: Shard, active: Shard, now: real, k: Key, v: Value, ttl: TtlArg, defaultTtl: Option<real>)
    requires Bare(lazy) && Bare(active) && Lookup(lazy, k) == Lookup(active, k)
    ensures Store(lazy, k, v, ttl, now, CacheOnly, defaultTtl).entries[k]
         == Store(active, k, v, ttl, now, CacheOnly, defaultTtl).entries[k]
  {
    assert Get(lazy.marks, k) == Get(active.marks, k);
  }

  lemma StoreParts(sh: Shard, k: Key, v: Value, ttl: TtlArg, now: real, defaultTtl: Option<real>)
    ensures var r := Store(sh, k, v, ttl, now, CacheOnly, defaultTtl);
            && r.entries == sh.entries[k := r.entries[k]]
            && r.stats.hits == sh.stats.hits && r.stats.misses == sh.stats.misses
  {
  }

  lemma BehindStored(lazy: Shard, active: Shard, now: real, k: Key, e: Entry, lazy': Shard, active': Shard)
    requires ShardOk(lazy) && Behind(lazy, active, now) && (k in lazy.entries <==> k in active.entries)
    requires lazy'.entries == lazy.entries[k := e] && active'.entries == active.entries[k := e]
    requires lazy'.order == (if k in lazy.entries then lazy.order else lazy.order + [k])
    requires active'.order == (if k in active.entries then active.order else active.order + [k])
    requires lazy'.capacity == lazy.capacity && active'.capacity == active.capacity
    requires lazy'.stats.hits == lazy.stats.hits && lazy'.stats.misses == lazy.stats.misses
    requires active'.stats.hits == active.stats.hits && active'.stats.misses == active.stats.misses
    ensures Behind(lazy', active', now)
  {
    StoreOrder(lazy, active, k);
    assert active'.entries.Keys == active.entries.Keys + {k};
  }

  lemma StoreBehind(c: Setting, lazy: Shard, active: Shard, now: real, k: Key, v: Value, ttl: TtlArg)
    requires Lagging(lazy, active, now) && (k in lazy.entries <==> k in active.entries)
    ensures Behind(Store(lazy, k, v, ttl, now, CacheOnly, c.defaultTtl),
                   Store(active, k, v, ttl, now, CacheOnly, c.defaultTtl), now)
  {
    SameEntry(lazy, active, now, k, v, ttl, c.defaultTtl);
    StoreParts(lazy, k, v, ttl, now, c.defaultTtl);
    StoreParts(active, k, v, ttl, now, c.defaultTtl);
    var lazy' := Store(lazy, k, v, ttl, now, CacheOnly, c.defaultTtl);
    BehindStored(lazy, active, now, k, lazy'.entries[k], lazy', Store(active, k, v, ttl, now, CacheOnly, c.defaultTtl));
  }

  lemma StoreBoth(c: Setting, lazy: Shard, active: Shard, now: real, k: Key, v: Value, ttl: TtlArg)
    requires Lagging(lazy, active, now) && (k in lazy.entries <==> k in active.entries)
    requires |Store(lazy, k, v, ttl, now, CacheOnly, c.defaultTtl).order| <= lazy.capacity
    ensures Lagging(Store(lazy, k, v, ttl, now, CacheOnly, c.defaultTtl),
                    Store(active, k, v, ttl, now, CacheOnly, c.defaultTtl), now)
  {
    StoreBehind(c, lazy, active, now, k, v, ttl);
    KeepShorter(Store(lazy, k, v, ttl, now, CacheOnly, c.defaultTtl).order,
                Store(active, k, v, ttl, now, CacheOnly, c.defaultTtl).entries.Keys);
    FitStore(lazy, k, v, ttl, now, c.defaultTtl);
    FitStore(active, k, v, ttl, now, c.defaultTtl);
  }

  lemma StoreOrder(lazy: Shard, active: Shard, k: Key)
    requires ShardOk(lazy) && active.order == Keep(lazy.order, active.entries.Keys)
    requires k in lazy.entries <==> k in active.entries
    ensures Keep(if k in lazy.entries then lazy.order else lazy.order + [k], active.entries.Keys + {k})
            == if k in active.entries then active.order else active.order + [k]
  {
    var keys := active.entries.Keys + {k};
    if k in lazy.entries {
      assert keys == active.entries.Keys;
    } else {
      KeepAppend(lazy.order, [k], keys);
      KeepAgree(lazy.order, keys, active.entries.Keys);
      assert Keep([k], keys) == [k];
    }
  }

  lemma PutBoth(c: Setting, lazy: Shard, active: Shard, now: real, k: Key, v: Value, ttl: TtlArg)
    requires Lagging(lazy, active, now)
    requires Put(lazy, k, v, ttl, now, CacheOnly, c.defaultTtl).stats.evictions == lazy.stats.evictions
    ensures Lagging(Put(lazy, k, v, ttl, now, CacheOnly, c.defaultTtl),
                    Put(active, k, v, ttl, now, CacheOnly, c.defaultTtl), now)
  {
    PutEvictsCandidate(lazy, k, v, ttl, now, CacheOnly, c.defaultTtl);
    StoredSize(lazy, k, v, ttl, now, CacheOnly, c.defaultTtl);
    LazyExpireBoth(lazy, active, now, k);
    StoreBoth(c, LazyExpire(lazy, k, now), LazyExpire(active, k, now), now, k, v, ttl);
  }

  lemma FitDelete(sh: Shard, k: Key)
    requires Bare(sh)
    ensures Bare(Delete(sh, k, CacheOnly))
    ensures ShardOk(sh) ==> ShardOk(Delete(sh, k, CacheOnly))
    ensures Delete(sh, k, CacheOnly).entries.Keys == sh.entries.Keys - {k}
    ensures Delete(sh, k, CacheOnly).stats.hits == sh.stats.hits
    ensures Delete(sh, k, CacheOnly).stats.misses == sh.stats.misses
  {
  }

  lemma DeleteBoth(lazy: Shard, active: Shard, now: real, k: Key)
    requires Lagging(lazy, active, now)
    ensures Lagging(Delete(lazy, k, CacheOnly), Delete(active, k, CacheOnly), now)
  {
    FitDelete(lazy, k);
    FitDelete(active, k);
    DeleteBehind(lazy, active, now, k, Delete(lazy, k, CacheOnly), Delete(active, k, CacheOnly));
  }

  lemma DeleteBehind(lazy: Shard, active: Shard, now: real, k: Key, lazy': Shard, active': Shard)
    requires Behind(lazy, active, now)
    requires lazy'.entries == lazy.entries - {k} && active'.entries == active.entries - {k}
    requires lazy'.order == Without(lazy.order, k) && active'.order == Without(active.order, k)
    requires lazy'.capacity == lazy.capacity && active'.capacity == active.capacity
    requires lazy'.stats.hits == lazy.stats.hits && lazy'.stats.misses == lazy.stats.misses
    requires active'.stats.hits == active.stats.hits && active'.stats.misses == active.stats.misses
    ensures Behind(lazy', active', now)
  {
    KeepWithout(lazy.order, k, active.entries.Keys);
    KeepWithout(lazy.order, k, active.entries.Keys - {k});
    assert active.entries.Keys - {k} - {k} == active.entries.Keys - {k};
  }

  lemma {:induction false} DeleteAllBare(sh: Shard, ks: seq<Key>)
    requires Bare(sh)
    ensures Bare(DeleteAll(sh, ks, CacheOnly))
    ensures DeleteAll(sh, ks, CacheOnly).stats.hits == sh.stats.hits
    ensures DeleteAll(sh, ks, CacheOnly).stats.misses == sh.stats.misses
    decreases |ks|
  {
    if ks != [] {
      FitDelete(sh, ks[0]);
      DeleteAllBare(Delete(sh, ks[0], CacheOnly), ks[1..]);
    }
  }

  lemma FitClear(sh: Shard)
    requires Fit(sh)
    ensures Fit(Clear(sh, CacheOnly))
    ensures Clear(sh, CacheOnly).entries == map[] && Clear(sh, CacheOnly).order == []
    ensures Clear(sh, CacheOnly).stats.hits == sh.stats.hits && Clear(sh, CacheOnly).stats.misses == sh.stats.misses
    ensures Clear(sh, CacheOnly).capacity == sh.capacity
  {
    ClearEmpties(sh, CacheOnly);
    DeleteAllBare(sh, sh.order);
  }

  lemma ClearBoth(lazy: Shard, active: Shard, now: real)
    requires Lagging(lazy, active, now)
    ensures Lagging(Clear(lazy, CacheOnly), Clear(active, CacheOnly), now)
  {
    FitClear(lazy);
    FitClear(active);
  }

  // ---------------------------------------------------------------- whole runs

  /**
    Equal replies, except that lazily `delete` may say that it removed an entry, and `size`
    may count entries, that no reader could see.
   */
  predicate SameReply(lazy: Reply, active: Reply) {
    if lazy.Existed? && active.Existed? then active.existed ==> lazy.existed
    else if lazy.Size? && active.Size? then active.count <= lazy.count
    else lazy == active
  }

  lemma ServeBoth(c: Setting, lazy: Shard, active: Shard, now: real, req: Request)
    requires c.mode == CacheOnly && Lagging(lazy, active, now) && now <= req.now
    requires Serve(c, lazy, req).1.stats.evictions == lazy.stats.evictions
    ensures Lagging(Serve(c, lazy, req).1, Serve(c, active, req).1, req.now)
    ensures SameReply(Serve(c, lazy, req).0, Serve(c, active, req).0)
  {
    Later(lazy, active, now, req.now);
    if req.PutReq? || req.DeleteReq? || req.ClearReq? || req.ExpireReq? {
      WriteBoth(c, lazy, active, req);
    } else {
      LookBoth(c, lazy, active, req);
    }
  }

  lemma WriteBoth(c: Setting, lazy: Shard, active: Shard, req: Request)
    requires c.mode == CacheOnly && Lagging(lazy, active, req.now)
    requires req.PutReq? || req.DeleteReq? || req.ClearReq? || req.ExpireReq?
    requires Serve(c, lazy, req).1.stats.evictions == lazy.stats.evictions
    ensures Lagging(Serve(c, lazy, req).1, Serve(c, active, req).1, req.now)
    ensures SameReply(Serve(c, lazy, req).0, Serve(c, active, req).0)
  {
    match req
    case PutReq(k, v, ttl, t) => if ValidTtl(ttl) { PutBoth(c, lazy, active, t, k, v, ttl); }
    case DeleteReq(k, t) => DeleteBoth(lazy, active, t, k);
    case ClearReq(t) => ClearBoth(lazy, active, t);
    case ExpireReq(t) => ExpireBoth(lazy, active, t);
  }

  lemma LookBoth(c: Setting, lazy: Shard, active: Shard, req: Request)
    requires Lagging(lazy, active, req.now)
    requires req.GetReq? || req.ContainsReq? || req.InspectReq? || req.DumpReq? || req.SizeReq?
    ensures Lagging(Serve(c, lazy, req).1, Serve(c, active, req).1, req.now)
    ensures SameReply(Serve(c, lazy, req).0, Serve(c, active, req).0)
  {
    match req
    case GetReq(k, t) => ReadBoth(lazy, active, t, k, true);
    case ContainsReq(k, t) => ReadBoth(lazy, active, t, k, false);
    case InspectReq(k, t) => LazyExpireBoth(lazy, active, t, k);
    case DumpReq(t) => DumpBoth(lazy, active, t); ExpireBoth(lazy, active, t);
    case SizeReq(_) => KeepShorter(lazy.order, active.entries.Keys);
  }

  /** The same requests without the active expiry. */
  function WithoutExpiry(reqs: seq<Request>): (r: seq<Request>)
    ensures forall q :: q in r ==> q in reqs
  {
    if reqs == [] then []
    else
      var before := WithoutExpiry(reqs[..|reqs| - 1]);
      if reqs[|reqs| - 1].ExpireReq? then before else before + [reqs[|reqs| - 1]]
  }

  /** The replies to all requests but active expiry. */
  function Replies(c: Setting, reqs: seq<Request>): seq<Reply> {
    if reqs == [] then []
    else
      var before := reqs[..|reqs| - 1];
      var req := reqs[|reqs| - 1];
      Replies(c, before) + if req.ExpireReq? then [] else [Serve(c, After(c, before), req).0]
  }

  ghost predicate SameReplies(lazy: seq<Reply>, active: seq<Reply>) {
    |lazy| == |active| && forall i :: 0 <= i < |lazy| ==> SameReply(lazy[i], active[i])
  }

  lemma AfterMore(c: Setting, reqs: seq<Request>, req: Request)
    ensures After(c, reqs + [req]) == Serve(c, After(c, reqs), req).1
  {
    assert (reqs + [req])[..|reqs|] == reqs;
  }

  lemma RepliesMore(c: Setting, reqs: seq<Request>, req: Request)
    ensures Replies(c, reqs + [req]) ==
              Replies(c, reqs) + if req.ExpireReq? then [] else [Serve(c, After(c, reqs), req).0]
  {
    assert (reqs + [req])[..|reqs|] == reqs;
  }

  /** A sweep on the active side only. */
  lemma LagSweep(c: Setting, lazy: seq<Request>, active: seq<Request>, now: real)
    requires Lagging(After(c, lazy), After(c, active), now)
    ensures Lagging(After(c, lazy), After(c, active + [ExpireReq(now)]), now)
    ensures Replies(c, active + [ExpireReq(now)]) == Replies(c, active)
  {
    AfterMore(c, active, ExpireReq(now));
    ServeSweep(c, After(c, active), now);
    SweepBehind(After(c, lazy), After(c, active), now, After(c, active + [ExpireReq(now)]));
    RepliesSweep(c, active, now);
  }

  lemma ServeSweep(c: Setting, sh: Shard, now: real)
    ensures Serve(c, sh, ExpireReq(now)).1 == ExpireAll(sh, now)
  {
  }

  lemma RepliesSweep(c: Setting, reqs: seq<Request>, now: real)
    ensures Replies(c, reqs + [ExpireReq(now)]) == Replies(c, reqs)
  {
    assert (reqs + [ExpireReq(now)])[..|reqs|] == reqs;
  }

  lemma SweepBehind(lazy: Shard, active: Shard, now: real, swept: Shard)
    requires Lagging(lazy, active, now) && swept == ExpireAll(active, now)
    ensures Lagging(lazy, swept, now)
  {
    ExpireActive(lazy, active, now);
  }

  lemma SameRepliesMore(lazy: seq<Reply>, active: seq<Reply>, l: Reply, a: Reply)
    requires SameReplies(lazy, active) && SameReply(l, a)
    ensures SameReplies(lazy + [l], active + [a])
  {
  }

  /** One more request on both sides. */
  lemma LagMore(c: Setting, lazy: seq<Request>, active: seq<Request>, req: Request)
    requires c.mode == CacheOnly && c.capacity >= 1 && !req.ExpireReq?
    requires Lagging(After(c, lazy), After(c, active), req.now) && SameReplies(Replies(c, lazy), Replies(c, active))
    requires Serve(c, After(c, lazy), req).1.stats.evictions == After(c, lazy).stats.evictions
    ensures Lagging(After(c, lazy + [req]), After(c, active + [req]), req.now)
    ensures SameReplies(Replies(c, lazy + [req]), Replies(c, active + [req]))
  {
    AfterMore(c, lazy, req);
    AfterMore(c, active, req);
    RepliesMore(c, lazy, req);
    RepliesMore(c, active, req);
    ServeBoth(c, After(c, lazy), After(c, active), req.now, req);
    SameRepliesMore(Replies(c, lazy), Replies(c, active),
                    Serve(c, After(c, lazy), req).0, Serve(c, After(c, active), req).0);
  }

  lemma {:induction false} RunsLag(c: Setting, reqs: seq<Request>, now: real)
    requires c.mode == CacheOnly && c.capacity >= 1 && Monotonic(reqs)
    requires reqs != [] ==> reqs[|reqs| - 1].now <= now
    requires After(c, WithoutExpiry(reqs)).stats.evictions == 0
    ensures Lagging(After(c, WithoutExpiry(reqs)), After(c, reqs), now)
    ensures SameReplies(Replies(c, WithoutExpiry(reqs)), Replies(c, reqs))
  {
    if reqs == [] {
      assert Bare(NewShard(c.capacity, c.kind));
    } else {
      var before, req := reqs[..|reqs| - 1], reqs[|reqs| - 1];
      var lazy := WithoutExpiry(before);
      assert reqs == before + [req];
      if req.ExpireReq? {
        RunsLag(c, before, req.now);
        LagSweep(c, lazy, before, req.now);
      } else {
        assert WithoutExpiry(reqs) == lazy + [req];
        NothingEvictedBefore(c, lazy, req);
        RunsLag(c, before, req.now);
        LagMore(c, lazy, before, req);
      }
      Later(After(c, WithoutExpiry(reqs)), After(c, reqs), req.now, now);
    }
  }

  lemma NothingEvictedBefore(c: Setting, reqs: seq<Request>, req: Request)
    requires c.capacity >= 1 && After(c, reqs + [req]).stats.evictions == 0
    ensures After(c, reqs).stats.evictions == 0 == Serve(c, After(c, reqs), req).1.stats.evictions
  {
    AfterMore(c, reqs, req);
    AlwaysOk(c, reqs);
    EvictionsGrow(c, After(c, reqs), req);
  }

  /**
    In cache-only mode, under a clock that never runs backwards and as long as lazy expiry
    alone evicts nothing, active expiry changes no reply to `get`, `contains`, `inspect` or
    `dump`, and no hit or miss count.  Of `delete` and `size` see `Sweeps`.
   */
  lemma ActiveExpiryIsInvisible(c: Setting, reqs: seq<Request>)
    requires c.mode == CacheOnly && c.capacity >= 1 && Monotonic(reqs)
    requires After(c, WithoutExpiry(reqs)).stats.evictions == 0
    ensures SameReplies(Replies(c, WithoutExpiry(reqs)), Replies(c, reqs))
    ensures After(c, reqs).stats.hits == After(c, WithoutExpiry(reqs)).stats.hits
    ensures After(c, reqs).stats.misses == After(c, WithoutExpiry(reqs)).stats.misses
  {
    RunsLag(c, reqs, if reqs == [] then 0.0 else reqs[|reqs| - 1].now);
  }
}
