/**
  What a shard tells its policy.  The callbacks of a request follow from the lossy map it
  meets, and the policy of a shard is the replay of all of them: who is evicted in a run is
  decided by the uses of the keys, as the laws of `PolicyHistory` say.
 */
module Callbacks {
  import opened Prelude
  import opened Policies
  import opened Shards
  import opened Capacity
  import opened ShardRuns
  import opened TtlMap
  import PolicyHistory

  type Event = PolicyHistory.Event

  function Gones(ks: seq<Key>): (r: seq<Event>)
    ensures |r| == |ks| && forall i :: 0 <= i < |ks| ==> r[i] == PolicyHistory.Gone(ks[i])
  {
    seq(|ks|, i requires 0 <= i < |ks| => PolicyHistory.Gone(ks[i]))
  }

  function Lapse(m: map<Key, Slot>, k: Key, now: real): seq<Event> {
    if k in m && Past(m[k], now) then [PolicyHistory.Gone(k)] else []
  }

  /** What a carried out put says before its capacity check. */
  function Storing(m: map<Key, Slot>, k: Key, now: real): seq<Event> {
    Lapse(m, k, now) + [PolicyHistory.Stored(k)]
  }

  /** The policy after some callbacks. */
  function Play(p: Policy, es: seq<Event>): (r: Policy)
    decreases |es|
  {
    if es == [] then p else Play(PolicyHistory.Step(p, es[0]), es[1..])
  }

  /** The key a put into a full map evicts. */
  function Victim(p: Policy, m: map<Key, Slot>, req: Request): Option<Key>
    requires req.PutReq?
  {
    Candidate(Play(p, Storing(m, req.key, req.now)))
  }

  /**
    The callbacks of a request that meets the map `m` and the policy `p`; `order` is the
    backend order, in which `dump`, `expire` and `clear` go through the keys.
   */
  function Told(c: Setting, m: map<Key, Slot>, order: seq<Key>, p: Policy, req: Request): seq<Event> {
    match req
    case PutReq(k, _, _, now) =>
      if !Stores(req) then []
      else if !Crowds(c, m, req) then Storing(m, k, now)
      else Storing(m, k, now) + (match Victim(p, m, req) case Some(v) => Gones([v]) case None => [])
    case GetReq(k, now) => if Live(m, k, now) then [PolicyHistory.Got(k)] else Lapse(m, k, now)
    case ContainsReq(k, now) => Lapse(m, k, now)
    case InspectReq(k, now) => Lapse(m, k, now)
    case DumpReq(_) => Gones(Keep(order, TtlMap.Found(m, req)))
    case ExpireReq(_) => Gones(Keep(order, TtlMap.Found(m, req)))
    case SizeReq(_) => []
    case DeleteReq(k, _) => [PolicyHistory.Gone(k)]
    case ClearReq(_) => Gones(order) + [PolicyHistory.Wiped]
  }

  /** The callbacks of a whole run. */
  function History(c: Setting, reqs: seq<Request>): seq<Event> {
    if reqs == [] then []
    else
      var sh, h := After(c, reqs[..|reqs| - 1]), History(c, reqs[..|reqs| - 1]);
      h + Told(c, View(sh), sh.order, PolicyHistory.Replay(c.kind, h), reqs[|reqs| - 1])
  }

  // ---------------------------------------------------------------- replaying

  lemma {:induction false} PlayAppend(p: Policy, es: seq<Event>, more: seq<Event>)
    ensures Play(p, es + more) == Play(Play(p, es), more)
    decreases |es|
  {
    if es == [] {
      assert es + more == more;
    } else {
      assert (es + more)[1..] == es[1..] + more;
      PlayAppend(PolicyHistory.Step(p, es[0]), es[1..], more);
    }
  }

  lemma PlayOne(p: Policy, e: Event)
    ensures Play(p, [e]) == PolicyHistory.Step(p, e)
  {
    assert [e][1..] == [];
  }

  lemma {:induction false} ReplayAppend(kind: Kind, h: seq<Event>, es: seq<Event>)
    ensures PolicyHistory.Replay(kind, h + es) == Play(PolicyHistory.Replay(kind, h), es)
    decreases |es|
  {
    if es == [] {
      assert h + es == h;
    } else {
      assert (h + [es[0]]) + es[1..] == h + es && (h + [es[0]])[..|h|] == h;
      ReplayAppend(kind, h + [es[0]], es[1..]);
    }
  }

  // ---------------------------------------------------------------- each request

  lemma {:induction false} RemoveAllPolicy(sh: Shard, ks: seq<Key>)
    ensures RemoveAll(sh, ks, Expire).policy == Play(sh.policy, Gones(ks))
    decreases |ks|
  {
    if ks != [] {
      assert Gones(ks)[1..] == Gones(ks[1..]);
      RemoveAllPolicy(Remove(sh, ks[0], Expire), ks[1..]);
    }
  }

  lemma DeletePolicy(sh: Shard, k: Key, mode: Mode)
    ensures Delete(sh, k, mode).policy == OnDelete(sh.policy, k)
  {
  }

  lemma {:induction false} DeleteAllPolicy(sh: Shard, ks: seq<Key>, mode: Mode)
    ensures DeleteAll(sh, ks, mode).policy == Play(sh.policy, Gones(ks))
    decreases |ks|
  {
    if ks != [] {
      assert Gones(ks)[1..] == Gones(ks[1..]);
      DeletePolicy(sh, ks[0], mode);
      DeleteAllPolicy(Delete(sh, ks[0], mode), ks[1..], mode);
    }
  }

  lemma ClearPolicy(sh: Shard, mode: Mode)
    ensures Clear(sh, mode).policy == Play(sh.policy, Gones(sh.order) + [PolicyHistory.Wiped])
  {
    DeleteAllPolicy(sh, sh.order, mode);
    PlayAppend(sh.policy, Gones(sh.order), [PolicyHistory.Wiped]);
    PlayOne(Play(sh.policy, Gones(sh.order)), PolicyHistory.Wiped);
  }

  lemma LapsePolicy(sh: Shard, k: Key, now: real)
    ensures LazyExpire(sh, k, now).policy == Play(sh.policy, Lapse(View(sh), k, now))
  {
    PlayOne(sh.policy, PolicyHistory.Gone(k));
  }

  lemma ReadPolicy(sh: Shard, k: Key, touch: bool, now: real)
    ensures Read(sh, k, touch, now).1.policy ==
              if touch && Live(View(sh), k, now) then OnGet(sh.policy, k) else Play(sh.policy, Lapse(View(sh), k, now))
  {
    PlayOne(sh.policy, PolicyHistory.Gone(k));
  }

  lemma SweepPolicy(sh: Shard, req: Request, sh': Shard)
    requires Tracked(sh) && (req.DumpReq? || req.ExpireReq?) && sh' == ExpireAll(sh, req.now)
    ensures sh'.policy == Play(sh.policy, Gones(Keep(sh.order, TtlMap.Found(View(sh), req))))
  {
    FoundAll(View(sh), req);
    PastIsExpired(sh, req.now);
    RemoveAllPolicy(sh, ExpiredKeys(sh, req.now));
  }

  lemma StoredPolicy(sh: Shard, k: Key, v: Value, ttl: TtlArg, now: real, mode: Mode, defaultTtl: Option<real>)
    ensures Stored(sh, k, v, ttl, now, mode, defaultTtl).policy == Play(sh.policy, Storing(View(sh), k, now))
  {
    LapsePolicy(sh, k, now);
    PlayAppend(sh.policy, Lapse(View(sh), k, now), [PolicyHistory.Stored(k)]);
    PlayOne(LazyExpire(sh, k, now).policy, PolicyHistory.Stored(k));
  }

  /** A put that meets a full shard tells its policy to drop the candidate. */
  lemma PutPolicy(sh: Shard, k: Key, v: Value, ttl: TtlArg, now: real, mode: Mode, defaultTtl: Option<real>)
    requires ShardOk(sh)
    ensures var stored := Stored(sh, k, v, ttl, now, mode, defaultTtl);
            && (Overflows(sh, k) ==> Candidate(stored.policy).Some?)
            && Put(sh, k, v, ttl, now, mode, defaultTtl).policy ==
                 if Overflows(sh, k) then OnDelete(stored.policy, Candidate(stored.policy).value) else stored.policy
  {
    var stored := Stored(sh, k, v, ttl, now, mode, defaultTtl);
    StoredSize(sh, k, v, ttl, now, mode, defaultTtl);
    PutIsEnforced(sh, k, v, ttl, now, mode, defaultTtl);
    if Overflows(sh, k) { EnforceOnce(stored); }
  }

  lemma CrowdsIsOverflow(c: Setting, sh: Shard, req: Request)
    requires Tracked(sh) && sh.capacity == c.capacity && Stores(req)
    ensures Crowds(c, View(sh), req) <==> Overflows(sh, req.key)
  {
    ViewSize(sh);
  }

  lemma PutTold(c: Setting, sh: Shard, req: Request, sh': Shard)
    requires ShardOk(sh) && sh.capacity == c.capacity && Stores(req)
    requires sh' == Put(sh, req.key, req.value, req.ttl, req.now, c.mode, c.defaultTtl)
    ensures sh'.policy == Play(sh.policy, Told(c, View(sh), sh.order, sh.policy, req))
  {
    var stored := Stored(sh, req.key, req.value, req.ttl, req.now, c.mode, c.defaultTtl);
    StoredPolicy(sh, req.key, req.value, req.ttl, req.now, c.mode, c.defaultTtl);
    PutPolicy(sh, req.key, req.value, req.ttl, req.now, c.mode, c.defaultTtl);
    CrowdsIsOverflow(c, sh, req);
    EvictTold(c, sh.policy, View(sh), sh.order, req, stored.policy, sh'.policy);
  }

  lemma EvictTold(c: Setting, p0: Policy, m: map<Key, Slot>, order: seq<Key>, req: Request, p: Policy, p': Policy)
    requires Stores(req) && p == Play(p0, Storing(m, req.key, req.now))
    requires Crowds(c, m, req) ==> Candidate(p).Some?
    requires p' == if Crowds(c, m, req) then OnDelete(p, Candidate(p).value) else p
    ensures p' == Play(p0, Told(c, m, order, p0, req))
  {
    var es := Storing(m, req.key, req.now);
    if Crowds(c, m, req) {
      var v := Candidate(p).value;
      PlayAppend(p0, es, Gones([v]));
      PlayOne(p, Gones([v])[0]);
      assert Gones([v]) == [Gones([v])[0]];
      assert Told(c, m, order, p0, req) == es + Gones([v]);
    } else {
      assert Told(c, m, order, p0, req) == es;
    }
  }

  lemma LookTold(c: Setting, sh: Shard, req: Request)
    requires req.GetReq? || req.ContainsReq? || req.InspectReq?
    ensures Serve(c, sh, req).1.policy == Play(sh.policy, Told(c, View(sh), sh.order, sh.policy, req))
  {
    PlayOne(sh.policy, PolicyHistory.Got(req.key));
    match req
    case GetReq(k, now) => ReadPolicy(sh, k, true, now);
    case ContainsReq(k, now) => ReadPolicy(sh, k, false, now);
    case InspectReq(k, now) => LapsePolicy(sh, k, now);
  }

  lemma OtherTold(c: Setting, sh: Shard, req: Request)
    requires Tracked(sh) && !Stores(req) && !req.GetReq? && !req.ContainsReq? && !req.InspectReq?
    ensures Serve(c, sh, req).1.policy == Play(sh.policy, Told(c, View(sh), sh.order, sh.policy, req))
  {
    match req
    case PutReq(_, _, _, _) =>
    case SizeReq(_) =>
    case DumpReq(_) => SweepPolicy(sh, req, Serve(c, sh, req).1);
    case ExpireReq(_) => SweepPolicy(sh, req, Serve(c, sh, req).1);
    case DeleteReq(k, _) => DeletePolicy(sh, k, c.mode); PlayOne(sh.policy, PolicyHistory.Gone(k));
    case ClearReq(_) => ClearPolicy(sh, c.mode);
  }

  /** A request makes exactly its callbacks. */
  lemma ServeTold(c: Setting, sh: Shard, req: Request)
    requires ShardOk(sh) && sh.capacity == c.capacity
    ensures Serve(c, sh, req).1.policy == Play(sh.policy, Told(c, View(sh), sh.order, sh.policy, req))
  {
    if Stores(req) {
      PutTold(c, sh, req, Serve(c, sh, req).1);
    } else if req.GetReq? || req.ContainsReq? || req.InspectReq? {
      LookTold(c, sh, req);
    } else {
      OtherTold(c, sh, req);
    }
  }

  // ---------------------------------------------------------------- whole runs

  /** The policy of a shard is the replay of the callbacks of its requests. */
  lemma {:induction false} PolicyIsReplay(c: Setting, reqs: seq<Request>)
    requires c.capacity >= 1
    ensures After(c, reqs).policy == PolicyHistory.Replay(c.kind, History(c, reqs))
  {
    if reqs != [] {
      var front := reqs[..|reqs| - 1];
      PolicyIsReplay(c, front);
      AlwaysOk(c, front);
      var sh, h := After(c, front), History(c, front);
      ServeTold(c, sh, reqs[|reqs| - 1]);
      ReplayAppend(c.kind, h, Told(c, View(sh), sh.order, sh.policy, reqs[|reqs| - 1]));
    }
  }

  /** Key `x` goes before key `y`: what each policy promises, from the history alone. */
  predicate GoesFirst(kind: Kind, h: seq<Event>, x: Key, y: Key) {
    && PolicyHistory.InsertedAt(h, x).Some? && PolicyHistory.InsertedAt(h, y).Some?
    && PolicyHistory.LastTouch(h, x).Some? && PolicyHistory.LastTouch(h, y).Some?
    && var insertedX, insertedY := PolicyHistory.InsertedAt(h, x).value, PolicyHistory.InsertedAt(h, y).value;
       var older := PolicyHistory.LastTouch(h, x).value < PolicyHistory.LastTouch(h, y).value;
       var usesX, usesY := PolicyHistory.TouchCount(h, x, insertedX), PolicyHistory.TouchCount(h, y, insertedY);
       match kind
       case FIFO => insertedX < insertedY
       case LRU => older
       case LFU => usesX < usesY || (usesX == usesY && older)
  }

  lemma CandidateGoesFirst(kind: Kind, h: seq<Event>, x: Key, y: Key)
    requires Candidate(PolicyHistory.Replay(kind, h)) == Some(x) && y in PolicyHistory.Replay(kind, h).order && y != x
    ensures GoesFirst(kind, h, x, y)
  {
    PolicyHistory.TracksInserted(kind, h);
    PolicyHistory.InsertedIsTouched(h, x);
    PolicyHistory.InsertedIsTouched(h, y);
    match kind
    case FIFO => PolicyHistory.FifoCandidate(h, x, y);
    case LRU => PolicyHistory.LruCandidate(h, x, y);
    case LFU => PolicyHistory.LfuCandidate(h, x, y);
  }

  /** A put that meets a full shard evicts the candidate of the history, and nothing else. */
  lemma CrowdedPut(c: Setting, sh: Shard, h: seq<Event>, req: Request, sh': Shard)
    requires ShardOk(sh) && sh.capacity == c.capacity && sh.policy == PolicyHistory.Replay(c.kind, h)
    requires Stores(req) && Crowds(c, View(sh), req)
    requires sh' == Put(sh, req.key, req.value, req.ttl, req.now, c.mode, c.defaultTtl)
    ensures var all := h + Storing(View(sh), req.key, req.now);
            var victim := Victim(sh.policy, View(sh), req);
            && victim.Some? && (victim.value in View(sh) || victim.value == req.key)
            && View(sh') == Exact(View(sh), req, c.defaultTtl) - {victim.value}
            && forall k :: k in View(sh') ==> k in PolicyHistory.Replay(c.kind, all).order && k != victim.value
  {
    var k, v, ttl, now := req.key, req.value, req.ttl, req.now;
    var stored := Stored(sh, k, v, ttl, now, c.mode, c.defaultTtl);
    StoredPolicy(sh, k, v, ttl, now, c.mode, c.defaultTtl);
    ReplayAppend(c.kind, h, Storing(View(sh), k, now));
    CrowdsIsOverflow(c, sh, req);
    PutEvictsCandidate(sh, k, v, ttl, now, c.mode, c.defaultTtl);
    StoredView(sh, k, v, ttl, now, c.mode, c.defaultTtl);
    var victim := Candidate(stored.policy).value;
    LessView(sh', stored, {victim});
    StoredKeys(sh, k, v, ttl, now, c.mode, c.defaultTtl);
  }

  lemma StoredKeys(sh: Shard, k: Key, v: Value, ttl: TtlArg, now: real, mode: Mode, defaultTtl: Option<real>)
    requires Tracked(sh)
    ensures var stored := Stored(sh, k, v, ttl, now, mode, defaultTtl);
            && (forall x :: x in stored.entries <==> x in stored.policy.order)
            && (forall x :: x in stored.entries ==> x in View(sh) || x == k)
  {
    assert Tracked(Stored(sh, k, v, ttl, now, mode, defaultTtl));
  }

  /**
    Whenever a new key meets a full shard, exactly one key leaves, and it goes before every
    key that stays: inserted first under FIFO, used longest ago under LRU, used least since
    its insertion under LFU, with ties to the one used longest ago.  Only puts and hits of
    `get` are uses; `contains`, `inspect`, `dump` and `size` are not.
   */
  lemma EvictionFollowsUse(c: Setting, reqs: seq<Request>, req: Request) returns (victim: Key)
    requires c.capacity >= 1 && Stores(req) && Crowds(c, View(After(c, reqs)), req)
    ensures var before, after := View(After(c, reqs)), View(After(c, reqs + [req]));
            var h := History(c, reqs) + Storing(before, req.key, req.now);
            && (victim in before || victim == req.key)
            && after == Exact(before, req, c.defaultTtl) - {victim}
            && forall k :: k in after ==> GoesFirst(c.kind, h, victim, k)
  {
    var sh, all := After(c, reqs), reqs + [req];
    assert all[..|reqs|] == reqs;
    var sh' := After(c, all);
    assert sh' == Serve(c, sh, req).1;
    AlwaysOk(c, reqs);
    PolicyIsReplay(c, reqs);
    CrowdedPut(c, sh, History(c, reqs), req, sh');
    victim := Victim(sh.policy, View(sh), req).value;
    var h := History(c, reqs) + Storing(View(sh), req.key, req.now);
    ReplayAppend(c.kind, History(c, reqs), Storing(View(sh), req.key, req.now));
    forall k | k in View(sh') ensures GoesFirst(c.kind, h, victim, k) {
      CandidateGoesFirst(c.kind, h, victim, k);
    }
  }

  // ---------------------------------------------------------------- looking without using

  /** Requests that look but do not use. */
  predicate Peeks(req: Request) {
    req.ContainsReq? || req.InspectReq? || req.DumpReq? || req.SizeReq? || req.ExpireReq?
  }

  /** A look keeps every unexpired entry whole, its hit count and access time included, and adds none. */
  lemma PeeksChangeNothing(c: Setting, sh: Shard, req: Request, k: Key)
    requires Tracked(sh) && Peeks(req)
    ensures Visible(Serve(c, sh, req).1, k, req.now) == Visible(sh, k, req.now)
    ensures k in Serve(c, sh, req).1.entries ==> k in sh.entries && Serve(c, sh, req).1.entries[k] == sh.entries[k]
  {
    if req.DumpReq? || req.ExpireReq? { SweptEntries(sh, req.now, Serve(c, sh, req).1); }
  }
}
