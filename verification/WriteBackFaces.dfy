/**
  Write-back flushing is invisible to clients.  Whatever the queue and the workers do, every
  shard of a write-back cache looks like the shard that has served the same requests alone.
 */
module WriteBackFaces {
  import opened Prelude
  import opened Shards
  import opened Runs
  import opened ShardRuns
  import opened TtlMap
  import opened Faces
  import opened Homes
  import opened WriteBack
  import opened WriteLog

  /** Shard `i` on its own. */
  function Own(c: Config, i: nat): Setting
    requires i < c.shardCount
  {
    Setting(CapacityOf(c, i), c.kind, Mode.WriteBack, c.defaultTtl)
  }

  /** The request a step puts to shard `i`, if any.  Deletes and clears look at no clock: `t` is any time. */
  function Asks(c: Config, step: Step, i: nat, t: real): Option<Request> {
    match step
    case PutStep(k, v, ttl, now) => if c.route(k) == i then Some(PutReq(k, v, ttl, now)) else None
    case DeleteStep(k) => if c.route(k) == i then Some(DeleteReq(k, t)) else None
    case ClearStep(j) => if j == i then Some(ClearReq(t)) else None
    case ReadStep(k, touch, now) =>
      if c.route(k) != i then None else if touch then Some(GetReq(k, now)) else Some(ContainsReq(k, now))
    case InspectStep(k, now) => if c.route(k) == i then Some(InspectReq(k, now)) else None
    case ExpireStep(j, now) => if j == i then Some(ExpireReq(now)) else None
    case _ => None
  }

  function Answered(c: Setting, sh: Shard, req: Option<Request>): Shard {
    match req case None => sh case Some(q) => Serve(c, sh, q).1
  }

  // A client step serves its request in its shard and leaves the others alone.

  lemma WriteServes(c: Config, s: State, step: Step, s': State, t: real)
    requires Takes(c, s, step, s') && (step.PutStep? || step.DeleteStep?)
    ensures var i := c.route(step.key);
            s'.shards == s.shards[i := Answered(Own(c, i), s.shards[i], Asks(c, step, i, t))]
  {
  }

  lemma ReadServes(c: Config, s: State, step: Step, s': State, t: real)
    requires Takes(c, s, step, s') && (step.ReadStep? || step.InspectStep?)
    ensures var i := c.route(step.key);
            s'.shards == s.shards[i := Answered(Own(c, i), s.shards[i], Asks(c, step, i, t))]
  {
  }

  lemma SweepServes(c: Config, s: State, step: Step, s': State, t: real)
    requires Takes(c, s, step, s') && step.ExpireStep?
    ensures var i := step.shard;
            s'.shards == s.shards[i := Answered(Own(c, i), s.shards[i], Asks(c, step, i, t))]
  {
    var i, sh := step.shard, s.shards[step.shard];
    assert s'.shards == s.shards[i := ExpireAll(sh, step.now)];
    assert Asks(c, step, i, t) == Some(ExpireReq(step.now));
  }

  lemma ClearServes(c: Config, s: State, i: nat, s': State, t: real)
    requires Takes(c, s, ClearStep(i), s')
    requires ClearShard(c, s, i).shards == s.shards[i := Clear(s.shards[i], Mode.WriteBack)]
    ensures s'.shards == s.shards[i := Answered(Own(c, i), s.shards[i], Asks(c, ClearStep(i), i, t))]
  {
    assert s' == ClearShard(c, s, i);
    assert Answered(Own(c, i), s.shards[i], Asks(c, ClearStep(i), i, t)) == Clear(s.shards[i], Mode.WriteBack);
  }

  /** The shard a client step runs in. */
  function Place(c: Config, step: Step): nat
    requires !Internal(step)
  {
    if step.ClearStep? || step.ExpireStep? then step.shard else c.route(step.key)
  }

  lemma Elsewhere(c: Config, step: Step, i: nat, t: real)
    requires !Internal(step) && i != Place(c, step)
    ensures Asks(c, step, i, t) == None
  {
  }

  lemma StepServes(c: Config, s: State, step: Step, s': State, t: real)
    requires Homed(c, s) && Takes(c, s, step, s') && !Internal(step)
    ensures var i := Place(c, step);
            i < c.shardCount && s'.shards == s.shards[i := Answered(Own(c, i), s.shards[i], Asks(c, step, i, t))]
  {
    match step
    case PutStep(_, _, _, _) => WriteServes(c, s, step, s', t);
    case DeleteStep(_) => WriteServes(c, s, step, s', t);
    case ReadStep(_, _, _) => ReadServes(c, s, step, s', t);
    case InspectStep(_, _) => ReadServes(c, s, step, s', t);
    case ExpireStep(_, _) => SweepServes(c, s, step, s', t);
    case ClearStep(i) => ClearShards(c, s, i); ClearServes(c, s, i, s', t);
  }

  lemma ClientShards(c: Config, s: State, step: Step, s': State, i: nat, t: real)
    requires Homed(c, s) && Takes(c, s, step, s') && !Internal(step) && i < c.shardCount
    ensures s'.shards[i] == Answered(Own(c, i), s.shards[i], Asks(c, step, i, t))
  {
    StepServes(c, s, step, s', t);
    if i != Place(c, step) { Elsewhere(c, step, i, t); }
  }

  lemma CleanFace(sh: Shard, job: Job)
    ensures FaceOf(CleanedBy(sh, job)) == FaceOf(sh)
  {
    var cleaned := CleanedBy(sh, job);
    assert View(cleaned) == View(sh);
  }

  lemma ResolveFace(sh: Shard, k: Key)
    ensures FaceOf(Resolve(sh, k)) == FaceOf(sh)
  {
    SameView(Resolve(sh, k), sh);
  }

  lemma SetFace(c: Config, s: State, k: Key, sh': Shard, s': State, i: nat)
    requires Shaped(c, s) && s'.shards == s.shards[c.route(k) := sh'] && FaceOf(sh') == FaceOf(ShardAt(c, s, k))
    requires i < c.shardCount
    ensures FaceOf(s'.shards[i]) == FaceOf(s.shards[i])
  {
  }

  lemma SettleFaces(c: Config, s: State, step: Step, s': State, i: nat)
    requires Takes(c, s, step, s') && i < c.shardCount
    requires step.SkipStep? || step.RejectStep? || step.RetryDroppedStep? || step.GiveUpStep?
    ensures FaceOf(s'.shards[i]) == FaceOf(s.shards[i])
  {
    var k := s.jobs[step.id].key;
    var sh' := Resolve(ShardAt(c, s, k), k);
    ResolveFace(ShardAt(c, s, k), k);
    assert s'.shards == s.shards[c.route(k) := sh'];
    SetFace(c, s, k, sh', s', i);
  }

  lemma FinishFaces(c: Config, s: State, id: nat, s': State, i: nat)
    requires Takes(c, s, FinishStep(id), s') && i < c.shardCount
    ensures FaceOf(s'.shards[i]) == FaceOf(s.shards[i])
  {
    var sh, job := ShardAt(c, s, s.jobs[id].key), s.jobs[id];
    var sh' := Resolve(CleanedBy(sh, job), job.key);
    CleanFace(sh, job);
    ResolveFace(CleanedBy(sh, job), job.key);
    assert s'.shards == s.shards[c.route(job.key) := sh'];
    SetFace(c, s, job.key, sh', s', i);
  }

  /** The job machinery changes no face. */
  lemma JobFaces(c: Config, s: State, step: Step, s': State, i: nat)
    requires Takes(c, s, step, s') && Internal(step) && i < c.shardCount
    ensures FaceOf(s'.shards[i]) == FaceOf(s.shards[i])
  {
    if step.SkipStep? || step.RejectStep? || step.RetryDroppedStep? || step.GiveUpStep? {
      SettleFaces(c, s, step, s', i);
    } else if step.FinishStep? {
      FinishFaces(c, s, step.id, s', i);
    }
  }

  function Append(reqs: seq<Request>, req: Option<Request>): seq<Request> {
    match req case None => reqs case Some(q) => reqs + [q]
  }

  /** What the first `n` steps of a run asked of shard `i`. */
  function Asked(c: Config, steps: seq<Step>, i: nat, n: nat, times: nat -> real): seq<Request>
    requires n <= |steps|
  {
    if n == 0 then [] else Append(Asked(c, steps, i, n - 1, times), Asks(c, steps[n - 1], i, times(n - 1)))
  }

  /** A shard that looks like a lone one still does after the same request. */
  lemma AnsweredFace(own: Setting, sh: Shard, reqs: seq<Request>, req: Option<Request>)
    requires own.capacity >= 1 && ShardOk(sh) && sh.capacity == own.capacity && FaceOf(sh) == FaceOf(After(own, reqs))
    ensures FaceOf(Answered(own, sh, req)) == FaceOf(After(own, Append(reqs, req)))
  {
    if req.Some? {
      AlwaysOk(own, reqs);
      ServeFace(own, sh, req.value);
      ServeFace(own, After(own, reqs), req.value);
      assert (reqs + [req.value])[..|reqs|] == reqs;
    }
  }

  lemma StepFaces(c: Config, s: State, step: Step, s': State, i: nat, t: real, reqs: seq<Request>)
    requires Homed(c, s) && Takes(c, s, step, s') && i < c.shardCount
    requires FaceOf(s.shards[i]) == FaceOf(After(Own(c, i), reqs))
    ensures FaceOf(s'.shards[i]) == FaceOf(After(Own(c, i), Append(reqs, Asks(c, step, i, t))))
  {
    if Internal(step) {
      JobFaces(c, s, step, s', i);
      assert Append(reqs, Asks(c, step, i, t)) == reqs;
    } else {
      assert Home(c, s.shards[i], i);
      ClientShards(c, s, step, s', i, t);
      AnsweredFace(Own(c, i), s.shards[i], reqs, Asks(c, step, i, t));
    }
  }

  /**
    In every execution, with any number of workers and any losses, each shard has the face of
    the shard that served its requests alone: every law of shard runs holds of it.
   */
  lemma {:induction false} FlushingIsInvisible(c: Config, source: map<Key, Value>, r: Run<State, Step>, i: nat, n: nat,
                                               times: nat -> real)
    requires Execution(c, source, r) && i < c.shardCount && n <= |r.steps|
    ensures |r.states[n].shards| == c.shardCount
    ensures FaceOf(r.states[n].shards[i]) == FaceOf(After(Own(c, i), Asked(c, r.steps, i, n, times)))
  {
    HomedAt(c, source, r, n);
    if n > 0 {
      FlushingIsInvisible(c, source, r, i, n - 1, times);
      HomedAt(c, source, r, n - 1);
      assert Steps(c)(r.states[n - 1], r.steps[n - 1], r.states[n - 1 + 1]);
      StepFaces(c, r.states[n - 1], r.steps[n - 1], r.states[n], i, times(n - 1), Asked(c, r.steps, i, n - 1, times));
    }
  }
}
