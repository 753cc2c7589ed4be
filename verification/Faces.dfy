/**
  What clients can tell of a shard: everything but versions, dirty marks, tombstones and
  pending flushes.  A request leads from one face to the next by a function that knows
  neither the mode of the cache nor that metadata, so no client can observe them.
 */
module Faces {
  import opened Prelude
  import opened Policies
  import opened Shards
  import opened Capacity
  import opened ShardRuns
  import opened TtlMap
  import opened Tallies
  import opened Callbacks
  import PolicyHistory

  datatype Face = Face(capacity: nat, order: seq<Key>, slots: map<Key, Slot>, policy: Policy, stats: Stats)

  function FaceOf(sh: Shard): Face {
    Face(sh.capacity, sh.order, View(sh), sh.policy, sh.stats)
  }

  function NextSlots(c: Setting, f: Face, req: Request): map<Key, Slot> {
    var exact := Exact(f.slots, req, c.defaultTtl);
    if !Crowds(c, f.slots, req) then exact
    else match Victim(f.policy, f.slots, req) case Some(v) => exact - {v} case None => exact
  }

  /** The callbacks of a request, replayed in the backend as under FIFO, give its key order. */
  function NextFace(c: Setting, f: Face, req: Request): Face {
    var told := Told(c, f.slots, f.order, f.policy, req);
    Face(f.capacity, Play(Fifo(f.order), told).order, NextSlots(c, f, req), Play(f.policy, told),
         Plus(f.stats, Tally(c, f.slots, req)))
  }

  // ---------------------------------------------------------------- the backend order

  lemma {:induction false} RemoveAllOrder(sh: Shard, ks: seq<Key>)
    ensures Fifo(RemoveAll(sh, ks, Expire).order) == Play(Fifo(sh.order), Gones(ks))
    decreases |ks|
  {
    if ks != [] {
      assert Gones(ks)[1..] == Gones(ks[1..]);
      RemoveAllOrder(Remove(sh, ks[0], Expire), ks[1..]);
    }
  }

  lemma {:induction false} DeleteAllOrder(sh: Shard, ks: seq<Key>, mode: Mode)
    ensures Fifo(DeleteAll(sh, ks, mode).order) == Play(Fifo(sh.order), Gones(ks))
    decreases |ks|
  {
    if ks != [] {
      assert Gones(ks)[1..] == Gones(ks[1..]);
      DeleteAllOrder(Delete(sh, ks[0], mode), ks[1..], mode);
    }
  }

  lemma ClearOrder(sh: Shard, mode: Mode)
    requires Tracked(sh)
    ensures Fifo(Clear(sh, mode).order) == Play(Fifo(sh.order), Gones(sh.order) + [PolicyHistory.Wiped])
  {
    ClearEmpties(sh, mode);
    DeleteAllOrder(sh, sh.order, mode);
    PlayAppend(Fifo(sh.order), Gones(sh.order), [PolicyHistory.Wiped]);
    PlayOne(Play(Fifo(sh.order), Gones(sh.order)), PolicyHistory.Wiped);
  }

  lemma LapseOrder(sh: Shard, k: Key, now: real)
    ensures Fifo(LazyExpire(sh, k, now).order) == Play(Fifo(sh.order), Lapse(View(sh), k, now))
  {
    PlayOne(Fifo(sh.order), PolicyHistory.Gone(k));
  }

  lemma ReadOrder(sh: Shard, k: Key, touch: bool, now: real)
    ensures Read(sh, k, touch, now).1.order == LazyExpire(sh, k, now).order
  {
  }

  lemma SweepOrder(sh: Shard, req: Request, sh': Shard)
    requires Tracked(sh) && (req.DumpReq? || req.ExpireReq?) && sh' == ExpireAll(sh, req.now)
    ensures Fifo(sh'.order) == Play(Fifo(sh.order), Gones(Keep(sh.order, TtlMap.Found(View(sh), req))))
  {
    FoundAll(View(sh), req);
    PastIsExpired(sh, req.now);
    RemoveAllOrder(sh, ExpiredKeys(sh, req.now));
  }

  lemma StoreOrder(sh: Shard, k: Key, v: Value, ttl: TtlArg, now: real, mode: Mode, defaultTtl: Option<real>)
    requires Tracked(sh)
    ensures Fifo(Store(sh, k, v, ttl, now, mode, defaultTtl).order) == OnPut(Fifo(sh.order), k)
  {
  }

  lemma StoredOrder(sh: Shard, k: Key, v: Value, ttl: TtlArg, now: real, mode: Mode, defaultTtl: Option<real>)
    requires Tracked(sh)
    ensures Fifo(Stored(sh, k, v, ttl, now, mode, defaultTtl).order) == Play(Fifo(sh.order), Storing(View(sh), k, now))
  {
    LapseOrder(sh, k, now);
    StoreOrder(LazyExpire(sh, k, now), k, v, ttl, now, mode, defaultTtl);
    PlayAppend(Fifo(sh.order), Lapse(View(sh), k, now), [PolicyHistory.Stored(k)]);
    PlayOne(Fifo(LazyExpire(sh, k, now).order), PolicyHistory.Stored(k));
  }

  lemma PutOrder(sh: Shard, k: Key, v: Value, ttl: TtlArg, now: real, mode: Mode, defaultTtl: Option<real>)
    requires ShardOk(sh)
    ensures var stored := Stored(sh, k, v, ttl, now, mode, defaultTtl);
            && (Overflows(sh, k) ==> Candidate(stored.policy).Some?)
            && Put(sh, k, v, ttl, now, mode, defaultTtl).order ==
                 if Overflows(sh, k) then Without(stored.order, Candidate(stored.policy).value) else stored.order
  {
    var stored := Stored(sh, k, v, ttl, now, mode, defaultTtl);
    StoredSize(sh, k, v, ttl, now, mode, defaultTtl);
    PutIsEnforced(sh, k, v, ttl, now, mode, defaultTtl);
    if Overflows(sh, k) { EnforceOnce(stored); }
  }

  /** The backend drops the policy's victim. */
  lemma EvictOrder(c: Setting, f: Face, req: Request, stored: seq<Key>, left: seq<Key>)
    requires Stores(req) && Fifo(stored) == Play(Fifo(f.order), Storing(f.slots, req.key, req.now))
    requires Crowds(c, f.slots, req) ==> Victim(f.policy, f.slots, req).Some?
    requires left == if Crowds(c, f.slots, req) then Without(stored, Victim(f.policy, f.slots, req).value) else stored
    ensures Fifo(left) == Play(Fifo(f.order), Told(c, f.slots, f.order, f.policy, req))
  {
    var es := Storing(f.slots, req.key, req.now);
    if Crowds(c, f.slots, req) {
      var v := Victim(f.policy, f.slots, req).value;
      PlayAppend(Fifo(f.order), es, Gones([v]));
      PlayOne(Fifo(stored), Gones([v])[0]);
      assert Gones([v]) == [Gones([v])[0]];
      assert Told(c, f.slots, f.order, f.policy, req) == es + Gones([v]);
    } else {
      assert Told(c, f.slots, f.order, f.policy, req) == es;
    }
  }

  lemma PutOrdered(c: Setting, sh: Shard, req: Request, sh': Shard)
    requires ShardOk(sh) && sh.capacity == c.capacity && Stores(req)
    requires sh' == Put(sh, req.key, req.value, req.ttl, req.now, c.mode, c.defaultTtl)
    ensures Fifo(sh'.order) == Play(Fifo(sh.order), Told(c, View(sh), sh.order, sh.policy, req))
  {
    var stored := Stored(sh, req.key, req.value, req.ttl, req.now, c.mode, c.defaultTtl);
    StoredPolicy(sh, req.key, req.value, req.ttl, req.now, c.mode, c.defaultTtl);
    StoredOrder(sh, req.key, req.value, req.ttl, req.now, c.mode, c.defaultTtl);
    PutOrder(sh, req.key, req.value, req.ttl, req.now, c.mode, c.defaultTtl);
    CrowdsIsOverflow(c, sh, req);
    EvictOrder(c, FaceOf(sh), req, stored.order, sh'.order);
  }

  lemma LookOrdered(c: Setting, sh: Shard, req: Request)
    requires req.GetReq? || req.ContainsReq? || req.InspectReq?
    ensures Fifo(Serve(c, sh, req).1.order) == Play(Fifo(sh.order), Told(c, View(sh), sh.order, sh.policy, req))
  {
    LapseOrder(sh, req.key, req.now);
    PlayOne(Fifo(sh.order), PolicyHistory.Got(req.key));
    match req
    case GetReq(k, now) => ReadOrder(sh, k, true, now);
    case ContainsReq(k, now) => ReadOrder(sh, k, false, now);
    case InspectReq(_, _) =>
  }

  lemma OtherOrdered(c: Setting, sh: Shard, req: Request)
    requires Tracked(sh) && !Stores(req) && !req.GetReq? && !req.ContainsReq? && !req.InspectReq?
    ensures Fifo(Serve(c, sh, req).1.order) == Play(Fifo(sh.order), Told(c, View(sh), sh.order, sh.policy, req))
  {
    match req
    case PutReq(_, _, _, _) =>
    case SizeReq(_) =>
    case DumpReq(_) => SweepOrder(sh, req, Serve(c, sh, req).1);
    case ExpireReq(_) => SweepOrder(sh, req, Serve(c, sh, req).1);
    case DeleteReq(k, _) => PlayOne(Fifo(sh.order), PolicyHistory.Gone(k));
    case ClearReq(_) => ClearOrder(sh, c.mode);
  }

  lemma ServeOrdered(c: Setting, sh: Shard, req: Request)
    requires ShardOk(sh) && sh.capacity == c.capacity
    ensures Fifo(Serve(c, sh, req).1.order) == Play(Fifo(sh.order), Told(c, View(sh), sh.order, sh.policy, req))
  {
    if Stores(req) {
      PutOrdered(c, sh, req, Serve(c, sh, req).1);
    } else if req.GetReq? || req.ContainsReq? || req.InspectReq? {
      LookOrdered(c, sh, req);
    } else {
      OtherOrdered(c, sh, req);
    }
  }

  // ---------------------------------------------------------------- each request

  lemma EvictSlots(c: Setting, f: Face, req: Request, full: map<Key, Slot>, left: map<Key, Slot>)
    requires Stores(req) && full == Asked(f.slots, req, c.defaultTtl)
    requires Crowds(c, f.slots, req) ==> Victim(f.policy, f.slots, req).Some?
    requires left == if Crowds(c, f.slots, req) then full - {Victim(f.policy, f.slots, req).value} else full
    ensures left == NextSlots(c, f, req)
  {
  }

  lemma PutLeaves(sh: Shard, k: Key, v: Value, ttl: TtlArg, now: real, mode: Mode, defaultTtl: Option<real>)
    requires ShardOk(sh)
    ensures var stored := Stored(sh, k, v, ttl, now, mode, defaultTtl);
            && (Overflows(sh, k) ==> Candidate(stored.policy).Some?)
            && View(Put(sh, k, v, ttl, now, mode, defaultTtl)) ==
                 if Overflows(sh, k) then View(stored) - {Candidate(stored.policy).value} else View(stored)
  {
    var stored, sh' := Stored(sh, k, v, ttl, now, mode, defaultTtl), Put(sh, k, v, ttl, now, mode, defaultTtl);
    PutEvictsCandidate(sh, k, v, ttl, now, mode, defaultTtl);
    if Overflows(sh, k) {
      LessView(sh', stored, {Candidate(stored.policy).value});
    } else {
      SameView(sh', stored);
    }
  }

  lemma PutSlots(c: Setting, sh: Shard, req: Request, sh': Shard)
    requires ShardOk(sh) && sh.capacity == c.capacity && Stores(req)
    requires sh' == Put(sh, req.key, req.value, req.ttl, req.now, c.mode, c.defaultTtl)
    ensures View(sh') == NextSlots(c, FaceOf(sh), req)
  {
    var k, v, ttl, now := req.key, req.value, req.ttl, req.now;
    var stored := Stored(sh, k, v, ttl, now, c.mode, c.defaultTtl);
    StoredPolicy(sh, k, v, ttl, now, c.mode, c.defaultTtl);
    StoredView(sh, k, v, ttl, now, c.mode, c.defaultTtl);
    CrowdsIsOverflow(c, sh, req);
    PutLeaves(sh, k, v, ttl, now, c.mode, c.defaultTtl);
    EvictSlots(c, FaceOf(sh), req, View(stored), View(sh'));
  }

  lemma ServeSlots(c: Setting, sh: Shard, req: Request)
    requires ShardOk(sh) && sh.capacity == c.capacity
    ensures View(Serve(c, sh, req).1) == NextSlots(c, FaceOf(sh), req)
  {
    if Stores(req) {
      PutSlots(c, sh, req, Serve(c, sh, req).1);
    } else {
      OtherView(c, sh, req);
    }
  }

  /** Everything a client can tell of the shard after a request follows from what it could tell before. */
  lemma ServeFace(c: Setting, sh: Shard, req: Request)
    requires ShardOk(sh) && sh.capacity == c.capacity
    ensures FaceOf(Serve(c, sh, req).1) == NextFace(c, FaceOf(sh), req)
  {
    ServeOk(c, sh, req);
    ServeOrdered(c, sh, req);
    ServeSlots(c, sh, req);
    ServeTold(c, sh, req);
    ServeTallies(c, sh, req);
  }

  // ---------------------------------------------------------------- replies

  function PlainEntry(e: Entry): Entry {
    e.(version := 0, dirty := false)
  }

  function PlainSnapshot(s: Snapshot): Snapshot {
    s.(entry := PlainEntry(s.entry))
  }

  function PlainSnapshots(s: seq<Snapshot>): (r: seq<Snapshot>)
    ensures |r| == |s| && forall i :: 0 <= i < |s| ==> r[i] == PlainSnapshot(s[i])
  {
    seq(|s|, i requires 0 <= i < |s| => PlainSnapshot(s[i]))
  }

  /** A reply without the versions and dirty marks that `inspect` and `dump` show. */
  function Plain(reply: Reply): Reply {
    match reply
    case Inspected(Some(s)) => Inspected(Some(PlainSnapshot(s)))
    case Dumped(s) => Dumped(PlainSnapshots(s))
    case _ => reply
  }

  lemma SameSlot(a: Shard, b: Shard, k: Key)
    requires View(a) == View(b)
    ensures k in a.entries <==> k in b.entries
    ensures k in a.entries ==> SlotOf(a.entries[k]) == SlotOf(b.entries[k])
  {
    assert k in View(a) <==> k in View(b);
  }

  lemma SameUnexpired(a: Shard, b: Shard, now: real)
    requires View(a) == View(b)
    ensures Unexpired(a, now) == Unexpired(b, now)
  {
    forall k ensures k in Unexpired(a, now) <==> k in Unexpired(b, now) { SameSlot(a, b, k); }
  }

  lemma SameSnapshot(a: Shard, b: Shard, k: Key, now: real)
    requires View(a) == View(b) && k in a.entries && k in b.entries
    ensures PlainSnapshot(SnapshotOf(k, a.entries[k], now)) == PlainSnapshot(SnapshotOf(k, b.entries[k], now))
  {
    SameSlot(a, b, k);
  }

  lemma SameSnapshots(a: Shard, b: Shard, ks: seq<Key>, now: real)
    requires View(a) == View(b) && forall k :: k in ks ==> k in a.entries && k in b.entries
    ensures PlainSnapshots(Snapshots(a, ks, now)) == PlainSnapshots(Snapshots(b, ks, now))
  {
    var sa, sb := Snapshots(a, ks, now), Snapshots(b, ks, now);
    forall i | 0 <= i < |ks| ensures PlainSnapshot(sa[i]) == PlainSnapshot(sb[i]) {
      SameSnapshot(a, b, ks[i], now);
    }
  }

  lemma SameDump(a: Shard, b: Shard, now: real)
    requires View(a) == View(b) && a.order == b.order
    ensures PlainSnapshots(Dump(a, now)) == PlainSnapshots(Dump(b, now))
  {
    SameUnexpired(a, b, now);
    SameSnapshots(a, b, Keep(a.order, Unexpired(a, now)), now);
  }

  /** A look at one key. */
  lemma SameLooks(c: Setting, a: Shard, c': Setting, b: Shard, req: Request)
    requires View(a) == View(b) && (req.GetReq? || req.ContainsReq? || req.InspectReq?)
    ensures Plain(Serve(c, a, req).0) == Plain(Serve(c', b, req).0)
  {
    SameSlot(a, b, req.key);
  }

  /** Shards with the same face reply alike. */
  lemma SameReplies(c: Setting, a: Shard, c': Setting, b: Shard, req: Request)
    requires FaceOf(a) == FaceOf(b)
    ensures Plain(Serve(c, a, req).0) == Plain(Serve(c', b, req).0)
  {
    if req.DumpReq? {
      SameDump(a, b, req.now);
    } else if req.GetReq? || req.ContainsReq? || req.InspectReq? {
      SameLooks(c, a, c', b, req);
    } else if req.DeleteReq? {
      SameSlot(a, b, req.key);
    }
  }

  // ---------------------------------------------------------------- whole runs

  lemma NextFaceModes(c: Setting, c': Setting, f: Face, req: Request)
    requires c' == c.(mode := c'.mode)
    ensures NextFace(c, f, req) == NextFace(c', f, req)
  {
  }

  lemma {:induction false} SameFaces(c: Setting, c': Setting, reqs: seq<Request>)
    requires c.capacity >= 1 && c' == c.(mode := c'.mode)
    ensures FaceOf(After(c, reqs)) == FaceOf(After(c', reqs))
  {
    if reqs != [] {
      var front, req := reqs[..|reqs| - 1], reqs[|reqs| - 1];
      SameFaces(c, c', front);
      AlwaysOk(c, front);
      AlwaysOk(c', front);
      ServeFace(c, After(c, front), req);
      ServeFace(c', After(c', front), req);
      NextFaceModes(c, c', FaceOf(After(c, front)), req);
    }
  }

  /** The mode of a cache cannot be told from its replies, its statistics or its evictions. */
  lemma ModesAreIndistinguishable(c: Setting, c': Setting, reqs: seq<Request>, req: Request)
    requires c.capacity >= 1 && c' == c.(mode := c'.mode)
    ensures FaceOf(After(c, reqs)) == FaceOf(After(c', reqs))
    ensures Plain(Serve(c, After(c, reqs), req).0) == Plain(Serve(c', After(c', reqs), req).0)
  {
    SameFaces(c, c', reqs);
    SameReplies(c, After(c, reqs), c', After(c', reqs), req);
  }

  /** The backend lists its keys by insertion, whatever the policy. */
  lemma {:induction false} BackendIsByInsertion(c: Setting, reqs: seq<Request>)
    requires c.capacity >= 1
    ensures Fifo(After(c, reqs).order) == PolicyHistory.Replay(FIFO, History(c, reqs))
    ensures PolicyHistory.SortedBy(After(c, reqs).order, PolicyHistory.Inserted(History(c, reqs)))
  {
    if reqs != [] {
      var front, req := reqs[..|reqs| - 1], reqs[|reqs| - 1];
      BackendIsByInsertion(c, front);
      AlwaysOk(c, front);
      var sh, h := After(c, front), History(c, front);
      ServeOrdered(c, sh, req);
      PolicyIsReplay(c, front);
      ReplayAppend(FIFO, h, Told(c, View(sh), sh.order, sh.policy, req));
    }
    PolicyHistory.OrderedByInsertion(History(c, reqs));
  }
}
