/** The statistics of a shard are counts over its requests and the maps they meet. */
module Tallies {
  import opened Prelude
  import opened Policies
  import opened Shards
  import opened Capacity
  import opened ShardRuns
  import opened TtlMap

  lemma RemoveStats(sh: Shard, k: Key, reason: Reason)
    ensures Remove(sh, k, reason).stats == Counted(sh.stats, k in sh.entries, reason)
  {
  }

  lemma DeleteStats(sh: Shard, k: Key, mode: Mode)
    ensures Delete(sh, k, mode).stats ==
              if k in sh.entries then sh.stats.(deletes := sh.stats.deletes + 1) else sh.stats
  {
    RemoveStats(if mode.WriteBack? then Note(sh, k) else sh, k, Drop);
  }

  lemma {:induction false} RemoveAllStats(sh: Shard, ks: seq<Key>)
    requires NoDup(ks) && forall k :: k in ks ==> k in sh.entries
    ensures RemoveAll(sh, ks, Expire).stats == sh.stats.(expirations := sh.stats.expirations + |ks|)
    decreases |ks|
  {
    if ks != [] {
      RemoveStats(sh, ks[0], Expire);
      RemoveAllStats(Remove(sh, ks[0], Expire), ks[1..]);
    }
  }

  lemma {:induction false} DeleteAllStats(sh: Shard, ks: seq<Key>, mode: Mode)
    requires NoDup(ks) && forall k :: k in ks ==> k in sh.entries
    ensures DeleteAll(sh, ks, mode).stats == sh.stats.(deletes := sh.stats.deletes + |ks|)
    decreases |ks|
  {
    if ks != [] {
      DeleteStats(sh, ks[0], mode);
      DeleteAllStats(Delete(sh, ks[0], mode), ks[1..], mode);
    }
  }

  lemma ExpiredAreFound(sh: Shard, req: Request, ks: seq<Key>)
    requires Tracked(sh) && (req.DumpReq? || req.ExpireReq?) && ks == ExpiredKeys(sh, req.now)
    ensures NoDup(ks) && |ks| == |TtlMap.Found(View(sh), req)|
  {
    KeepNoDup(sh.order, set k | k in sh.entries && Expired(sh.entries[k], req.now));
    NoDupCardinality(ks);
    FoundAll(View(sh), req);
    PastIsExpired(sh, req.now);
    assert Elems(ks) == TtlMap.Found(View(sh), req);
  }

  /** One expiration for each entry a sweep finds past its deadline. */
  lemma SweepStats(sh: Shard, req: Request, sh': Shard)
    requires Tracked(sh) && (req.DumpReq? || req.ExpireReq?) && sh' == ExpireAll(sh, req.now)
    ensures sh'.stats == sh.stats.(expirations := sh.stats.expirations + |TtlMap.Found(View(sh), req)|)
  {
    var ks := ExpiredKeys(sh, req.now);
    ExpiredAreFound(sh, req, ks);
    RemoveAllStats(sh, ks);
  }

  lemma LazyStats(sh: Shard, k: Key, now: real)
    ensures LazyExpire(sh, k, now).stats == sh.stats.(expirations := sh.stats.expirations +
              if k in sh.entries && Expired(sh.entries[k], now) then 1 else 0)
  {
    RemoveStats(sh, k, Expire);
  }

  lemma ReadStats(sh: Shard, k: Key, touch: bool, now: real)
    ensures var expired := k in sh.entries && Expired(sh.entries[k], now);
            var hit := k in sh.entries && !expired;
            Read(sh, k, touch, now).1.stats ==
              sh.stats.(hits := sh.stats.hits + if hit then 1 else 0,
                        misses := sh.stats.misses + if hit then 0 else 1,
                        expirations := sh.stats.expirations + if expired then 1 else 0)
  {
    RemoveStats(sh, k, Expire);
  }

  lemma StoredCounts(sh: Shard, k: Key, v: Value, ttl: TtlArg, now: real, mode: Mode, defaultTtl: Option<real>)
    ensures Stored(sh, k, v, ttl, now, mode, defaultTtl).stats ==
              sh.stats.(puts := sh.stats.puts + 1,
                        expirations := sh.stats.expirations +
                          if k in sh.entries && Expired(sh.entries[k], now) then 1 else 0)
  {
    LazyStats(sh, k, now);
    StoreStats(LazyExpire(sh, k, now), k, v, ttl, now, mode, defaultTtl);
  }

  lemma EnforceStats(stored: Shard)
    requires Tracked(stored) && |stored.order| <= stored.capacity + 1
    ensures Enforce(stored).stats ==
              stored.stats.(evictions := stored.stats.evictions + if |stored.order| > stored.capacity then 1 else 0)
  {
    if |stored.order| > stored.capacity {
      EnforceOnce(stored);
      RemoveStats(stored, Candidate(stored.policy).value, Evict);
    }
  }

  lemma PutStats(sh: Shard, k: Key, v: Value, ttl: TtlArg, now: real, mode: Mode, defaultTtl: Option<real>)
    requires ShardOk(sh)
    ensures Put(sh, k, v, ttl, now, mode, defaultTtl).stats ==
              sh.stats.(puts := sh.stats.puts + 1,
                        evictions := sh.stats.evictions + if Overflows(sh, k) then 1 else 0,
                        expirations := sh.stats.expirations +
                          if k in sh.entries && Expired(sh.entries[k], now) then 1 else 0)
  {
    var stored := Stored(sh, k, v, ttl, now, mode, defaultTtl);
    StoredCounts(sh, k, v, ttl, now, mode, defaultTtl);
    StoredSize(sh, k, v, ttl, now, mode, defaultTtl);
    PutIsEnforced(sh, k, v, ttl, now, mode, defaultTtl);
    assert Put(sh, k, v, ttl, now, mode, defaultTtl).stats == Enforce(stored).stats;
    EnforceStats(stored);
  }

  lemma StoreStats(sh: Shard, k: Key, v: Value, ttl: TtlArg, now: real, mode: Mode, defaultTtl: Option<real>)
    ensures Store(sh, k, v, ttl, now, mode, defaultTtl).stats == sh.stats.(puts := sh.stats.puts + 1)
  {
  }

  lemma FoundByPut(m: map<Key, Slot>, req: Request)
    requires Stores(req)
    ensures TtlMap.Found(m, req) == if req.key in m && Past(m[req.key], req.now) then {req.key} else {}
  {
  }

  lemma PutTally(c: Setting, m: map<Key, Slot>, req: Request, before: Stats, after: Stats)
    requires Stores(req)
    requires after == before.(puts := before.puts + 1,
                              evictions := before.evictions + if Crowds(c, m, req) then 1 else 0,
                              expirations := before.expirations +
                                if req.key in m && Past(m[req.key], req.now) then 1 else 0)
    ensures after == Plus(before, Tally(c, m, req))
  {
    FoundByPut(m, req);
  }

  lemma ViewMeets(c: Setting, sh: Shard, req: Request)
    requires Tracked(sh) && sh.capacity == c.capacity && Stores(req)
    ensures Crowds(c, View(sh), req) == Overflows(sh, req.key)
    ensures (req.key in View(sh) && Past(View(sh)[req.key], req.now)) ==
              (req.key in sh.entries && Expired(sh.entries[req.key], req.now))
  {
    ViewSize(sh);
  }

  lemma PutTallies(c: Setting, sh: Shard, req: Request, sh': Shard)
    requires ShardOk(sh) && sh.capacity == c.capacity && Stores(req)
    requires sh' == Put(sh, req.key, req.value, req.ttl, req.now, c.mode, c.defaultTtl)
    ensures sh'.stats == Plus(sh.stats, Tally(c, View(sh), req))
  {
    PutStats(sh, req.key, req.value, req.ttl, req.now, c.mode, c.defaultTtl);
    ViewMeets(c, sh, req);
    MeetsTally(c, sh, req, sh'.stats);
  }

  lemma MeetsTally(c: Setting, sh: Shard, req: Request, after: Stats)
    requires Stores(req) && Crowds(c, View(sh), req) == Overflows(sh, req.key)
    requires (req.key in View(sh) && Past(View(sh)[req.key], req.now)) ==
               (req.key in sh.entries && Expired(sh.entries[req.key], req.now))
    requires after == sh.stats.(puts := sh.stats.puts + 1,
                                evictions := sh.stats.evictions + if Overflows(sh, req.key) then 1 else 0,
                                expirations := sh.stats.expirations +
                                  if req.key in sh.entries && Expired(sh.entries[req.key], req.now) then 1 else 0)
    ensures after == Plus(sh.stats, Tally(c, View(sh), req))
  {
    PutTally(c, View(sh), req, sh.stats, after);
  }

  lemma LookTallies(c: Setting, sh: Shard, req: Request)
    requires req.GetReq? || req.ContainsReq? || req.InspectReq?
    ensures Serve(c, sh, req).1.stats == Plus(sh.stats, Tally(c, View(sh), req))
  {
    FoundOne(View(sh), req, req.key);
    match req
    case GetReq(k, now) => ReadStats(sh, k, true, now);
    case ContainsReq(k, now) => ReadStats(sh, k, false, now);
    case InspectReq(k, now) => LazyStats(sh, k, now);
  }

  lemma ClearTally(c: Setting, m: map<Key, Slot>, req: Request, before: Stats, after: Stats)
    requires req.ClearReq? && after == before.(deletes := before.deletes + |m|)
    ensures after == Plus(before, Tally(c, m, req))
  {
    FoundNone(m, req);
  }

  lemma ClearStats(sh: Shard, mode: Mode)
    requires Tracked(sh)
    ensures Clear(sh, mode).stats == sh.stats.(deletes := sh.stats.deletes + |View(sh)|)
  {
    ViewSize(sh);
    DeleteAllStats(sh, sh.order, mode);
  }

  lemma ClearTallies(c: Setting, sh: Shard, req: Request)
    requires Tracked(sh) && req.ClearReq?
    ensures Serve(c, sh, req).1.stats == Plus(sh.stats, Tally(c, View(sh), req))
  {
    ClearStats(sh, c.mode);
    ClearTally(c, View(sh), req, sh.stats, Clear(sh, c.mode).stats);
  }

  lemma DeleteTallies(c: Setting, sh: Shard, req: Request, sh': Shard)
    requires req.DeleteReq? && sh' == Delete(sh, req.key, c.mode)
    ensures sh'.stats == Plus(sh.stats, Tally(c, View(sh), req))
  {
    FoundNone(View(sh), req);
    DeleteStats(sh, req.key, c.mode);
  }

  lemma IdleTallies(c: Setting, sh: Shard, req: Request)
    requires req.SizeReq? || (req.PutReq? && !Stores(req))
    ensures sh.stats == Plus(sh.stats, Tally(c, View(sh), req))
  {
    FoundNone(View(sh), req);
  }

  lemma SweepTally(c: Setting, m: map<Key, Slot>, req: Request, before: Stats, after: Stats)
    requires req.DumpReq? || req.ExpireReq?
    requires after == before.(expirations := before.expirations + |TtlMap.Found(m, req)|)
    ensures after == Plus(before, Tally(c, m, req))
  {
  }

  lemma SweepTallies(c: Setting, sh: Shard, req: Request, sh': Shard)
    requires Tracked(sh) && (req.DumpReq? || req.ExpireReq?) && sh' == ExpireAll(sh, req.now)
    ensures sh'.stats == Plus(sh.stats, Tally(c, View(sh), req))
  {
    SweepStats(sh, req, sh');
    SweepTally(c, View(sh), req, sh.stats, sh'.stats);
  }

  /** Every request adds exactly its tally to the statistics. */
  lemma ServeTallies(c: Setting, sh: Shard, req: Request)
    requires ShardOk(sh) && sh.capacity == c.capacity
    ensures Serve(c, sh, req).1.stats == Plus(sh.stats, Tally(c, View(sh), req))
  {
    var sh' := Serve(c, sh, req).1;
    if Stores(req) {
      PutTallies(c, sh, req, sh');
    } else {
      match req
      case PutReq(_, _, _, _) => IdleTallies(c, sh, req);
      case SizeReq(_) => IdleTallies(c, sh, req);
      case DumpReq(_) => SweepTallies(c, sh, req, sh');
      case ExpireReq(_) => SweepTallies(c, sh, req, sh');
      case DeleteReq(_, _) => DeleteTallies(c, sh, req, sh');
      case ClearReq(_) => ClearTallies(c, sh, req);
      case _ => LookTallies(c, sh, req);
    }
  }

  /** Hits, misses, puts, deletes, evictions and expirations are counts over the requests. */
  lemma {:induction false} StatsAreTallies(c: Setting, reqs: seq<Request>, n: nat)
    requires c.capacity >= 1 && n <= |reqs|
    ensures After(c, reqs[..n]).stats == TallyAll(c, reqs[..n], Views(c, reqs))
  {
    if n > 0 {
      var ms := Views(c, reqs);
      StatsAreTallies(c, reqs, n - 1);
      AlwaysOk(c, reqs[..n - 1]);
      AfterNext(c, reqs, n - 1);
      assert reqs[..n][..n - 1] == reqs[..n - 1];
      ServeTallies(c, After(c, reqs[..n - 1]), reqs[n - 1]);
      assert ms[n - 1] == View(After(c, reqs[..n - 1]));
    }
  }
}
