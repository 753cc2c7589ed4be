/** Whole runs of a write-through cache: what its source holds, and what each shard was asked. */
module WriteThroughRuns {
  import opened Prelude
  import opened Shards
  import opened Runs
  import opened ShardRuns
  import opened WriteThrough

  // ---------------------------------------------------------------- the source

  /** The keys a wipe gets through before the source fails. */
  function Through(order: seq<Key>, failsAt: nat): seq<Key> {
    if failsAt < |order| then order[..failsAt] else order
  }

  /** What a step that reaches the source for `k` leaves there; `None` if it does not reach it. */
  function Leaves(s: State, step: Step, k: Key): Option<Option<Value>> {
    match step
    case Write(j, v, _, _, works) => if works && j == k then Some(Some(v)) else None
    case Erase(j, works) => if works && j == k then Some(None) else None
    case Wipe(i, failsAt) => if i < |s.shards| && k in Through(s.shards[i].order, failsAt) then Some(None) else None
    case Look(_, _, _) => None
    case Inspect(_, _) => None
    case Sweep(_, _) => None
  }

  function Held(source: map<Key, Value>, k: Key): Option<Value> {
    if k in source then Some(source[k]) else None
  }

  lemma SourceStep(c: Config, s: State, step: Step, k: Key)
    requires Shaped(c, s) && Enabled(c, step)
    ensures Held(Do(c, s, step).source, k) ==
              match Leaves(s, step, k) case Some(held) => held case None => Held(s.source, k)
  {
  }

  lemma {:induction false} UntilThen(c: Config, r: Run<State, Step>, k: Key, n: nat, m: nat)
    requires IsRun(Steps(c), r) && n <= m <= |r.steps|
    requires forall j :: n <= j < m ==> Leaves(r.states[j], r.steps[j], k).None?
    ensures Held(r.states[m].source, k) == Held(r.states[n].source, k)
    decreases m
  {
    if n < m {
      UntilThen(c, r, k, n, m - 1);
      assert Steps(c)(r.states[m - 1], r.steps[m - 1], r.states[m - 1 + 1]);
      SourceStep(c, r.states[m - 1], r.steps[m - 1], k);
    }
  }

  /**
    The newest step that reached the source for `k` decides what the source holds: the value
    of a put, nothing after a delete or after a wipe that got past `k`.
   */
  lemma NewestWriteDecides(c: Config, r: Run<State, Step>, k: Key, n: nat)
    requires IsRun(Steps(c), r) && n < |r.steps| && Leaves(r.states[n], r.steps[n], k).Some?
    requires forall j :: n < j < |r.steps| ==> Leaves(r.states[j], r.steps[j], k).None?
    ensures Held(Final(r).source, k) == Leaves(r.states[n], r.steps[n], k).value
  {
    assert Steps(c)(r.states[n], r.steps[n], r.states[n + 1]);
    SourceStep(c, r.states[n], r.steps[n], k);
    UntilThen(c, r, k, n + 1, |r.steps|);
  }

  /** A key that no step reached is as it was at first. */
  lemma UnreachedKeyStays(c: Config, r: Run<State, Step>, k: Key)
    requires IsRun(Steps(c), r)
    requires forall j :: 0 <= j < |r.steps| ==> Leaves(r.states[j], r.steps[j], k).None?
    ensures Held(Final(r).source, k) == Held(r.states[0].source, k)
  {
    UntilThen(c, r, k, 0, |r.steps|);
  }

  // ---------------------------------------------------------------- the shards

  function Deletes(ks: seq<Key>, t: real): (r: seq<Request>)
    ensures |r| == |ks| && forall i :: 0 <= i < |ks| ==> r[i] == DeleteReq(ks[i], t)
  {
    seq(|ks|, i requires 0 <= i < |ks| => DeleteReq(ks[i], t))
  }

  /**
    What a step asks of shard `i`.  A put whose source call fails has only looked for an
    expired entry, a failed delete has done nothing, and a wipe that fails has deleted the
    keys it got through.  Deletes and clears look at no clock: `t` stands for any time.
   */
  function Asks(c: Config, s: State, step: Step, i: nat, t: real): seq<Request>
    requires Shaped(c, s)
  {
    match step
    case Write(k, v, ttl, now, works) =>
      if c.route(k) != i then [] else if works then [PutReq(k, v, ttl, now)] else [InspectReq(k, now)]
    case Erase(k, works) => if c.route(k) == i && works then [DeleteReq(k, t)] else []
    case Wipe(j, failsAt) =>
      if j != i || i >= |s.shards| then []
      else if failsAt < |s.shards[i].order| then Deletes(s.shards[i].order[..failsAt], t)
      else [ClearReq(t)]
    case Look(k, touch, now) =>
      if c.route(k) != i then [] else if touch then [GetReq(k, now)] else [ContainsReq(k, now)]
    case Inspect(k, now) => if c.route(k) == i then [InspectReq(k, now)] else []
    case Sweep(j, now) => if j == i then [ExpireReq(now)] else []
  }

  function ServeAll(c: Setting, sh: Shard, reqs: seq<Request>): Shard
    decreases |reqs|
  {
    if reqs == [] then sh else ServeAll(c, Serve(c, sh, reqs[0]).1, reqs[1..])
  }

  lemma ServeOne(c: Setting, sh: Shard, req: Request)
    ensures ServeAll(c, sh, [req]) == Serve(c, sh, req).1
  {
    assert [req][1..] == [];
  }

  lemma {:induction false} AfterAppend(c: Setting, reqs: seq<Request>, more: seq<Request>)
    ensures After(c, reqs + more) == ServeAll(c, After(c, reqs), more)
    decreases |more|
  {
    if more == [] {
      assert reqs + more == reqs;
    } else {
      assert (reqs + [more[0]]) + more[1..] == reqs + more && (reqs + [more[0]])[..|reqs|] == reqs;
      AfterAppend(c, reqs + [more[0]], more[1..]);
    }
  }

  lemma {:induction false} ServeDeletes(c: Setting, sh: Shard, ks: seq<Key>, t: real)
    requires c.mode == Mode.WriteThrough
    ensures ServeAll(c, sh, Deletes(ks, t)) == DeleteAll(sh, ks, Mode.WriteThrough)
    decreases |ks|
  {
    if ks != [] {
      assert Deletes(ks, t)[1..] == Deletes(ks[1..], t);
      ServeDeletes(c, Delete(sh, ks[0], Mode.WriteThrough), ks[1..], t);
    }
  }

  lemma WriteAsks(c: Config, s: State, step: Step, i: nat, own: Setting, t: real)
    requires Shaped(c, s) && Enabled(c, step) && step.Write? && i < c.shardCount
    requires own.mode == Mode.WriteThrough && own.defaultTtl == c.defaultTtl
    ensures Do(c, s, step).shards[i] == ServeAll(own, s.shards[i], Asks(c, s, step, i, t))
  {
    if c.route(step.key) == i {
      var req := if step.works then PutReq(step.key, step.value, step.ttl, step.now)
                 else InspectReq(step.key, step.now);
      ServeOne(own, s.shards[i], req);
      assert Asks(c, s, step, i, t) == [req];
    }
  }

  lemma WipeAsks(c: Config, s: State, step: Step, i: nat, own: Setting, t: real)
    requires Shaped(c, s) && Enabled(c, step) && step.Wipe? && i < c.shardCount && own.mode == Mode.WriteThrough
    ensures Do(c, s, step).shards[i] == ServeAll(own, s.shards[i], Asks(c, s, step, i, t))
  {
    var sh := s.shards[i];
    if step.shard == i && step.failsAt < |sh.order| {
      ServeDeletes(own, sh, sh.order[..step.failsAt], t);
    } else if step.shard == i {
      ServeOne(own, sh, ClearReq(t));
      assert Asks(c, s, step, i, t) == [ClearReq(t)];
    }
  }

  lemma EraseAsks(c: Config, s: State, step: Step, i: nat, own: Setting, t: real)
    requires Shaped(c, s) && step.Erase? && i < c.shardCount && own.mode == Mode.WriteThrough
    ensures Do(c, s, step).shards[i] == ServeAll(own, s.shards[i], Asks(c, s, step, i, t))
  {
    if c.route(step.key) == i && step.works {
      ServeOne(own, s.shards[i], DeleteReq(step.key, t));
      assert Asks(c, s, step, i, t) == [DeleteReq(step.key, t)];
    }
  }

  /** A read, an inspection or a sweep. */
  predicate Quiet(step: Step) {
    step.Look? || step.Inspect? || step.Sweep?
  }

  function QuietRequest(step: Step): Request
    requires Quiet(step)
  {
    match step
    case Look(k, touch, now) => if touch then GetReq(k, now) else ContainsReq(k, now)
    case Inspect(k, now) => InspectReq(k, now)
    case Sweep(_, now) => ExpireReq(now)
  }

  lemma QuietAsks(c: Config, s: State, step: Step, i: nat, own: Setting, t: real)
    requires Shaped(c, s) && Enabled(c, step) && Quiet(step) && i < c.shardCount
    ensures Do(c, s, step).shards[i] == ServeAll(own, s.shards[i], Asks(c, s, step, i, t))
  {
    if i == if step.Sweep? then step.shard else c.route(step.key) {
      ServeOne(own, s.shards[i], QuietRequest(step));
      assert Asks(c, s, step, i, t) == [QuietRequest(step)];
      QuietServes(c, s, step, own, i);
    }
  }

  lemma QuietServes(c: Config, s: State, step: Step, own: Setting, i: nat)
    requires Shaped(c, s) && Enabled(c, step) && Quiet(step)
    requires i == if step.Sweep? then step.shard else c.route(step.key)
    ensures Do(c, s, step).shards[i] == Serve(own, s.shards[i], QuietRequest(step)).1
  {
  }

  lemma StepAsks(c: Config, s: State, step: Step, i: nat, own: Setting, t: real)
    requires Shaped(c, s) && Enabled(c, step) && i < c.shardCount
    requires own.mode == Mode.WriteThrough && own.defaultTtl == c.defaultTtl
    ensures Do(c, s, step).shards[i] == ServeAll(own, s.shards[i], Asks(c, s, step, i, t))
  {
    if step.Write? {
      WriteAsks(c, s, step, i, own, t);
    } else if step.Erase? {
      EraseAsks(c, s, step, i, own, t);
    } else if step.Wipe? {
      WipeAsks(c, s, step, i, own, t);
    } else {
      QuietAsks(c, s, step, i, own, t);
    }
  }

  /** What the first `n` steps of a run asked of shard `i`. */
  function Asked(c: Config, r: Run<State, Step>, i: nat, n: nat, times: nat -> real): seq<Request>
    requires n <= |r.steps| < |r.states| && forall m :: 0 <= m < n ==> Shaped(c, r.states[m])
  {
    if n == 0 then []
    else Asked(c, r, i, n - 1, times) + Asks(c, r.states[n - 1], r.steps[n - 1], i, times(n - 1))
  }

  lemma AlwaysShaped(c: Config, r: Run<State, Step>)
    requires IsRun(Steps(c), r)
    ensures forall m :: 0 <= m < |r.steps| ==> Shaped(c, r.states[m])
  {
    forall m | 0 <= m < |r.steps| ensures Shaped(c, r.states[m]) {
      assert Steps(c)(r.states[m], r.steps[m], r.states[m + 1]);
    }
  }

  /**
    Whatever the source does, each shard is the one that has served the requests put to it:
    every law of shard runs holds of a write-through cache, failures included.
   */
  lemma {:induction false} ShardsServeTheirRequests(c: Config, r: Run<State, Step>, own: Setting, i: nat, n: nat,
                                                    times: nat -> real)
    requires IsRun(Steps(c), r) && n <= |r.steps| && i < c.shardCount && ValidConfig(c)
    requires |r.states[0].shards| == c.shardCount && r.states[0].shards[i] == NewShard(own.capacity, own.kind)
    requires own.mode == Mode.WriteThrough && own.defaultTtl == c.defaultTtl
    ensures forall m :: 0 <= m < n ==> Shaped(c, r.states[m])
    ensures Shaped(c, r.states[n])
    ensures r.states[n].shards[i] == After(own, Asked(c, r, i, n, times))
  {
    AlwaysShaped(c, r);
    if n > 0 {
      ShardsServeTheirRequests(c, r, own, i, n - 1, times);
      assert Steps(c)(r.states[n - 1], r.steps[n - 1], r.states[n - 1 + 1]);
      var s, step := r.states[n - 1], r.steps[n - 1];
      StepAsks(c, s, step, i, own, times(n - 1));
      AfterAppend(own, Asked(c, r, i, n - 1, times), Asks(c, s, step, i, times(n - 1)));
    }
  }
}
