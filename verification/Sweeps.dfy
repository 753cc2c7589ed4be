/** What a caller can learn of expiry sweeps from `delete` and `size`, in cache-only mode. */
module Sweeps {
  import opened Prelude
  import opened Shards
  import opened Capacity
  import opened ShardRuns
  import opened TtlMap
  import opened ActiveExpiry

  // ---------------------------------------------------------------- what a sweep takes away

  /** Request `i` is a sweep at or after the deadline of `e`, and nothing was put under `k` since. */
  predicate SweptAt(reqs: seq<Request>, i: nat, k: Key, e: Entry) {
    && i < |reqs| && reqs[i].ExpireReq? && Expired(e, reqs[i].now)
    && forall j :: i < j < |reqs| ==> !(Stores(reqs[j]) && reqs[j].key == k)
  }

  /** Since the put that stored `e` under `k` there was a sweep at or after its deadline. */
  ghost predicate SweptSince(reqs: seq<Request>, k: Key, e: Entry) {
    exists i: nat :: SweptAt(reqs, i, k, e)
  }

  lemma SweptMore(reqs: seq<Request>, req: Request, k: Key, e: Entry, e': Entry)
    requires e'.expiresAt == e.expiresAt
    ensures SweptSince(reqs + [req], k, e') <==>
              !(Stores(req) && req.key == k) && (SweptSince(reqs, k, e) || (req.ExpireReq? && Expired(e, req.now)))
  {
    var all := reqs + [req];
    if SweptSince(all, k, e') {
      var i: nat :| SweptAt(all, i, k, e');
      assert all[|reqs|] == req;
      if i < |reqs| { assert SweptAt(reqs, i, k, e) by { SweptPrefix(reqs, req, i, k, e, e'); } }
    }
    if !(Stores(req) && req.key == k) {
      if SweptSince(reqs, k, e) {
        var i: nat :| SweptAt(reqs, i, k, e);
        assert SweptAt(all, i, k, e');
      }
      if req.ExpireReq? && Expired(e, req.now) { assert SweptAt(all, |reqs|, k, e'); }
    }
  }

  lemma SweptPrefix(reqs: seq<Request>, req: Request, i: nat, k: Key, e: Entry, e': Entry)
    requires e'.expiresAt == e.expiresAt && i < |reqs| && SweptAt(reqs + [req], i, k, e')
    ensures SweptAt(reqs, i, k, e)
  {
    var all := reqs + [req];
    assert all[i] == reqs[i];
    forall j | i < j < |reqs| ensures !(Stores(reqs[j]) && reqs[j].key == k) {
      assert all[j] == reqs[j];
    }
  }

  lemma {:induction false} KeepLosesOne(s: seq<Key>, keep: set<Key>, k: Key)
    requires k in s && k !in keep
    ensures |Keep(s, keep)| < |s|
  {
    KeepShorter(s[1..], keep);
    if s[0] in keep { KeepLosesOne(s[1..], keep, k); }
  }

  /** A put that fits lazily fits with sweeps too. */
  lemma FitsToo(lazy: Shard, active: Shard, now: real, j: Key)
    requires Lagging(lazy, active, now) && !Overflows(lazy, j)
    ensures !Overflows(active, j)
  {
    KeepShorter(lazy.order, active.entries.Keys);
    if j in lazy.entries && j !in active.entries { KeepLosesOne(lazy.order, active.entries.Keys, j); }
  }

  /** A put of another key that evicts nothing leaves the entry of `k` alone. */
  lemma PutElsewhere(c: Setting, sh: Shard, req: Request, sh': Shard, k: Key)
    requires ShardOk(sh) && Stores(req) && req.key != k && !Overflows(sh, req.key) && sh' == Serve(c, sh, req).1
    ensures k in sh'.entries <==> k in sh.entries
    ensures k in sh.entries ==> sh'.entries[k].expiresAt == sh.entries[k].expiresAt
  {
    var _ := PutView(c, sh, req, sh');
    assert View(sh').Keys == sh'.entries.Keys && View(sh).Keys == sh.entries.Keys;
    assert k in sh.entries ==> View(sh')[k] == View(sh)[k];
  }

  /** Any other request treats the entry of `k` by its deadline alone. */
  lemma OtherElsewhere(c: Setting, lazy: Shard, active: Shard, req: Request, k: Key)
    requires ShardOk(lazy) && ShardOk(active) && !Stores(req) && !req.ExpireReq?
    requires k in Serve(c, lazy, req).1.entries
    requires k in active.entries ==> k in lazy.entries && active.entries[k] == lazy.entries[k]
    ensures k in lazy.entries && Serve(c, lazy, req).1.entries[k].expiresAt == lazy.entries[k].expiresAt
    ensures k in Serve(c, active, req).1.entries <==> k in active.entries
  {
    ServeShrinks(c, lazy, req);
    ServeShrinks(c, active, req);
    if k in active.entries { StaysToo(c, lazy, active, req, k); }
  }

  lemma StaysToo(c: Setting, lazy: Shard, active: Shard, req: Request, k: Key)
    requires ShardOk(lazy) && ShardOk(active) && !Stores(req) && !req.ExpireReq?
    requires k in active.entries && k in lazy.entries && active.entries[k] == lazy.entries[k]
    requires k in Serve(c, lazy, req).1.entries
    ensures k in Serve(c, active, req).1.entries
  {
    match req
    case ClearReq(_) => ClearEmpties(lazy, c.mode);
    case DumpReq(now) => SweepRemoves(lazy, k, now); SweepRemoves(active, k, now);
    case GetReq(j, now) => ReadRemoves(lazy, j, true, now, k); ReadRemoves(active, j, true, now, k);
    case ContainsReq(j, now) => ReadRemoves(lazy, j, false, now, k); ReadRemoves(active, j, false, now, k);
    case _ =>
  }

  lemma ReadRemoves(sh: Shard, j: Key, touch: bool, now: real, k: Key)
    requires k in sh.entries
    ensures k in Read(sh, j, touch, now).1.entries <==> j != k || !Expired(sh.entries[k], now)
  {
  }

  /** If `k` is held lazily, it is gone with sweeps exactly if it was swept since it was stored. */
  ghost predicate Explained(c: Setting, reqs: seq<Request>, k: Key) {
    var lazy := After(c, WithoutExpiry(reqs));
    k in lazy.entries ==> (k !in After(c, reqs).entries <==> SweptSince(reqs, k, lazy.entries[k]))
  }

  lemma {:induction false} GoneIffSwept(c: Setting, reqs: seq<Request>, k: Key)
    requires c.mode == CacheOnly && c.capacity >= 1 && Monotonic(reqs)
    requires After(c, WithoutExpiry(reqs)).stats.evictions == 0
    ensures Explained(c, reqs, k)
  {
    if reqs != [] {
      var before, req := reqs[..|reqs| - 1], reqs[|reqs| - 1];
      assert reqs == before + [req];
      PrefixMonotonic(before, req);
      LazyMore(before, req);
      if req.ExpireReq? {
        GoneIffSwept(c, before, k);
        GoneBySweep(c, before, req.now, k);
      } else {
        NothingEvictedBefore(c, WithoutExpiry(before), req);
        GoneIffSwept(c, before, k);
        GoneByRequest(c, before, req, k);
      }
    }
  }

  lemma LazyMore(reqs: seq<Request>, req: Request)
    ensures WithoutExpiry(reqs + [req]) == WithoutExpiry(reqs) + if req.ExpireReq? then [] else [req]
  {
    assert (reqs + [req])[..|reqs|] == reqs;
  }

  lemma GoneByRequest(c: Setting, before: seq<Request>, req: Request, k: Key)
    requires c.mode == CacheOnly && c.capacity >= 1 && Monotonic(before) && !req.ExpireReq?
    requires before != [] ==> before[|before| - 1].now <= req.now
    requires var lazy := After(c, WithoutExpiry(before));
             lazy.stats.evictions == 0 == Serve(c, lazy, req).1.stats.evictions
    requires Explained(c, before, k)
    ensures Explained(c, before + [req], k)
  {
    var reqs := WithoutExpiry(before);
    LazyMore(before, req);
    RunsLag(c, before, req.now);
    AfterMore(c, reqs, req);
    AfterMore(c, before, req);
    if k in After(c, reqs + [req]).entries {
      if Stores(req) && req.key == k {
        StoredIsHeld(c, before, req);
      } else {
        SameElsewhere(c, After(c, reqs), After(c, before), req, k);
        SweptMore(before, req, k, After(c, reqs).entries[k], After(c, reqs + [req]).entries[k]);
      }
    }
  }

  lemma GoneBySweep(c: Setting, before: seq<Request>, now: real, k: Key)
    requires c.mode == CacheOnly && c.capacity >= 1 && Monotonic(before)
    requires before != [] ==> before[|before| - 1].now <= now
    requires After(c, WithoutExpiry(before)).stats.evictions == 0 && Explained(c, before, k)
    ensures Explained(c, before + [ExpireReq(now)], k)
  {
    LazyMore(before, ExpireReq(now));
    RunsLag(c, before, now);
    AfterMore(c, before, ExpireReq(now));
    SweepRemoves(After(c, before), k, now);
    if k in After(c, WithoutExpiry(before)).entries {
      var e := After(c, WithoutExpiry(before)).entries[k];
      SweptMore(before, ExpireReq(now), k, e, e);
    }
  }

  lemma SweepRemoves(sh: Shard, k: Key, now: real)
    requires ShardOk(sh)
    ensures k in ExpireAll(sh, now).entries <==> k in sh.entries && !Expired(sh.entries[k], now)
  {
    assert k in sh.entries ==> (k in ExpiredKeys(sh, now) <==> Expired(sh.entries[k], now));
  }

  lemma PrefixMonotonic(reqs: seq<Request>, req: Request)
    requires Monotonic(reqs + [req])
    ensures Monotonic(reqs) && (reqs != [] ==> reqs[|reqs| - 1].now <= req.now)
  {
    var all := reqs + [req];
    forall i, j | 0 <= i < j < |reqs| ensures reqs[i].now <= reqs[j].now {
      assert all[i].now <= all[j].now;
    }
    assert reqs != [] ==> all[|reqs| - 1].now <= all[|reqs|].now;
  }

  /** A key that was just put is held on both sides, and no sweep followed. */
  lemma StoredIsHeld(c: Setting, before: seq<Request>, req: Request)
    requires c.mode == CacheOnly && c.capacity >= 1 && Stores(req)
    requires Lagging(After(c, WithoutExpiry(before)), After(c, before), req.now)
    requires Serve(c, After(c, WithoutExpiry(before)), req).1.stats.evictions
             == After(c, WithoutExpiry(before)).stats.evictions
    ensures req.key in Serve(c, After(c, before), req).1.entries
    ensures forall e :: !SweptSince(before + [req], req.key, e)
  {
    var lazy, active := After(c, WithoutExpiry(before)), After(c, before);
    var victim := PutView(c, lazy, req, Serve(c, lazy, req).1);
    FitsToo(lazy, active, req.now, req.key);
    var none := PutView(c, active, req, Serve(c, active, req).1);
    assert req.key in View(Serve(c, active, req).1);
    forall e ensures !SweptSince(before + [req], req.key, e) { SweptMore(before, req, req.key, e, e); }
  }

  lemma SameElsewhere(c: Setting, lazy: Shard, active: Shard, req: Request, k: Key)
    requires c.mode == CacheOnly && Lagging(lazy, active, req.now) && !req.ExpireReq?
    requires !(Stores(req) && req.key == k) && k in Serve(c, lazy, req).1.entries
    requires Serve(c, lazy, req).1.stats.evictions == lazy.stats.evictions
    ensures k in lazy.entries && Serve(c, lazy, req).1.entries[k].expiresAt == lazy.entries[k].expiresAt
    ensures k in Serve(c, active, req).1.entries <==> k in active.entries
  {
    if Stores(req) {
      var victim := PutView(c, lazy, req, Serve(c, lazy, req).1);
      FitsToo(lazy, active, req.now, req.key);
      PutElsewhere(c, lazy, req, Serve(c, lazy, req).1, k);
      PutElsewhere(c, active, req, Serve(c, active, req).1, k);
    } else {
      OtherElsewhere(c, lazy, active, req, k);
    }
  }

  // ---------------------------------------------------------------- what it shows

  /**
    What `delete` returns depends on sweeps exactly for a key whose lazily held entry was
    swept: a sweep at or after its deadline followed the put that stored it.
   */
  lemma DeleteTellsIffSwept(c: Setting, reqs: seq<Request>, k: Key, now: real)
    requires c.mode == CacheOnly && c.capacity >= 1 && Monotonic(reqs)
    requires reqs != [] ==> reqs[|reqs| - 1].now <= now
    requires After(c, WithoutExpiry(reqs)).stats.evictions == 0
    ensures var lazy := After(c, WithoutExpiry(reqs));
            Serve(c, lazy, DeleteReq(k, now)).0 != Serve(c, After(c, reqs), DeleteReq(k, now)).0 <==>
              k in lazy.entries && SweptSince(reqs, k, lazy.entries[k])
  {
    RunsLag(c, reqs, now);
    DeleteSays(c, After(c, WithoutExpiry(reqs)), k, now);
    DeleteSays(c, After(c, reqs), k, now);
    GoneIffSwept(c, reqs, k);
  }

  lemma DeleteSays(c: Setting, sh: Shard, k: Key, now: real)
    ensures Serve(c, sh, DeleteReq(k, now)).0 == Existed(k in sh.entries)
  {
  }

  /** What `size` returns depends on sweeps exactly if some lazily held entry was swept. */
  lemma SizeTellsIffSwept(c: Setting, reqs: seq<Request>, now: real)
    requires c.mode == CacheOnly && c.capacity >= 1 && Monotonic(reqs)
    requires reqs != [] ==> reqs[|reqs| - 1].now <= now
    requires After(c, WithoutExpiry(reqs)).stats.evictions == 0
    ensures var lazy := After(c, WithoutExpiry(reqs));
            Serve(c, lazy, SizeReq(now)).0 != Serve(c, After(c, reqs), SizeReq(now)).0 <==>
              exists k :: k in lazy.entries && SweptSince(reqs, k, lazy.entries[k])
  {
    var lazy := After(c, WithoutExpiry(reqs));
    RunsLag(c, reqs, now);
    SizesDiffer(c, lazy, After(c, reqs), now);
    forall k | k in lazy.entries ensures k !in After(c, reqs).entries <==> SweptSince(reqs, k, lazy.entries[k]) {
      GoneIffSwept(c, reqs, k);
    }
  }

  lemma SizesDiffer(c: Setting, lazy: Shard, active: Shard, now: real)
    requires Lagging(lazy, active, now)
    ensures Serve(c, lazy, SizeReq(now)).0 != Serve(c, active, SizeReq(now)).0 <==>
              exists k :: k in lazy.entries && k !in active.entries
  {
    assert Serve(c, lazy, SizeReq(now)).0 == Size(|lazy.order|);
    assert Serve(c, active, SizeReq(now)).0 == Size(|active.order|);
    if k :| k in lazy.entries && k !in active.entries {
      KeepLosesOne(lazy.order, active.entries.Keys, k);
    } else {
      KeepAll(lazy.order, active.entries.Keys);
    }
  }

  /** A run in which both differ: a put with a ttl, and a sweep after its deadline. */
  lemma DeleteAndSizeCanTell(c: Setting, k: Key, v: Value) returns (reqs: seq<Request>)
    requires c.mode == CacheOnly && c.capacity >= 1
    ensures Monotonic(reqs) && |reqs| == 2 && reqs[1].now == 2.0
    ensures After(c, WithoutExpiry(reqs)).stats.evictions == 0
    ensures Serve(c, After(c, WithoutExpiry(reqs)), DeleteReq(k, 2.0)).0
            != Serve(c, After(c, reqs), DeleteReq(k, 2.0)).0
    ensures Serve(c, After(c, WithoutExpiry(reqs)), SizeReq(2.0)).0 != Serve(c, After(c, reqs), SizeReq(2.0)).0
  {
    var put := [PutReq(k, v, Seconds(1.0), 0.0)];
    reqs := put + [ExpireReq(2.0)];
    assert reqs[..1] == put && put[..0] == [];
    assert WithoutExpiry(put) == put && WithoutExpiry(reqs) == put;
    assert [] + put == put;
    AfterMore(c, [], put[0]);
    ExpiringPut(c, k, v, After(c, put));
    assert SweptAt(reqs, 1, k, After(c, put).entries[k]);
    DeleteTellsIffSwept(c, reqs, k, 2.0);
    SizeTellsIffSwept(c, reqs, 2.0);
  }

  lemma ExpiringPut(c: Setting, k: Key, v: Value, sh: Shard)
    requires c.capacity >= 1 && sh == Serve(c, NewShard(c.capacity, c.kind), PutReq(k, v, Seconds(1.0), 0.0)).1
    ensures k in sh.entries && Expired(sh.entries[k], 2.0) && sh.stats.evictions == 0
  {
    var empty := NewShard(c.capacity, c.kind);
    PutEvictsCandidate(empty, k, v, Seconds(1.0), 0.0, c.mode, c.defaultTtl);
    StoredEntry(empty, k, v, Seconds(1.0), 0.0, c.mode, c.defaultTtl);
  }
}
