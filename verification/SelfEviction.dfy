/**
  A write-back put that evicts its own key.  Capacity is enforced before the flush is
  registered, so the key's version mark is pruned: its job is stale at birth, and the next
  write of the key starts again at version 1.
 */
module SelfEviction {
  import opened Prelude
  import opened Policies
  import opened Shards
  import opened Cells
  import opened Runs
  import opened Capacity
  import opened WriteBack
  import opened WriteBackInvariant
  import opened Homes
  import opened WriteBackTheorems
  import opened WriteBackAccounts

  // ---------------------------------------------------------------- when it happens

  /**
    What a caller can check before a put of `k`: the policy is LFU, the key is not held, the
    shard is full of keys used at least twice, and no flush of the key is pending.
   */
  predicate SelfEvicts(sh: Shard, k: Key) {
    && sh.policy.Lfu? && Overflows(sh, k)
    && (forall j :: j in sh.policy.order ==> Freq(sh.policy.freq, j) >= 2)
    && Get(sh.pending, k) == 0
  }

  lemma SelfEvictsIffNotGentle(c: Config, s: State, k: Key, v: Value, ttl: TtlArg, now: real)
    requires Homed(c, s)
    ensures SelfEvicts(ShardAt(c, s, k), k) <==> !Gentle(c, s, PutStep(k, v, ttl, now))
  {
    assert Home(c, ShardAt(c, s, k), c.route(k));
    SelfEvictionIff(ShardAt(c, s, k), k, v, ttl, now, Mode.WriteBack, c.defaultTtl);
  }

  /** The mark is pruned before the flush is counted. */
  lemma SelfEvictionPrunes(sh: Shard, k: Key, v: Value, ttl: TtlArg, now: real, defaultTtl: Option<real>)
    requires !Benign(sh, k, Put(sh, k, v, ttl, now, Mode.WriteBack, defaultTtl))
    ensures k !in Put(sh, k, v, ttl, now, Mode.WriteBack, defaultTtl).marks
  {
    PutCells(sh, k, v, ttl, now, defaultTtl);
  }

  lemma BenignPutIsFresh(sh: Shard, k: Key, v: Value, ttl: TtlArg, now: real, defaultTtl: Option<real>)
    requires Benign(sh, k, Put(sh, k, v, ttl, now, Mode.WriteBack, defaultTtl))
    ensures var sh' := Put(sh, k, v, ttl, now, Mode.WriteBack, defaultTtl);
            !IsStale(sh'.marks, sh'.tombs, k, PutOp(v), PutVersion(sh, k, now))
  {
    PutCells(sh, k, v, ttl, now, defaultTtl);
  }

  /** In every reachable state the job of a put is stale at birth exactly when the put evicts its own key. */
  lemma StillbornIffSelfEvicts(c: Config, s: State, k: Key, v: Value, ttl: TtlArg, now: real)
    requires Homed(c, s) && ValidTtl(ttl)
    ensures var s' := Do(c, s, PutStep(k, v, ttl, now));
            Stale(c, s', s'.jobs[|s.log|]) <==> SelfEvicts(ShardAt(c, s, k), k)
  {
    SelfEvictsIffNotGentle(c, s, k, v, ttl, now);
    if Gentle(c, s, PutStep(k, v, ttl, now)) {
      BenignPutIsFresh(ShardAt(c, s, k), k, v, ttl, now, c.defaultTtl);
    } else {
      SelfEvictionPrunes(ShardAt(c, s, k), k, v, ttl, now, c.defaultTtl);
    }
  }

  // ---------------------------------------------------------------- versions restart

  predicate Writes(step: Step, k: Key) {
    (step.PutStep? || step.DeleteStep?) && step.key == k
  }

  /** Job `id` is an outstanding put of `k` with version 1, or over; and `k` has no version mark. */
  ghost predicate Unmarked(c: Config, s: State, k: Key, id: nat) {
    && Homed(c, s)
    && id < |s.log|
    && CellAt(c, s, k).mark.None?
    && (id in s.jobs ==> s.jobs[id].key == k && s.jobs[id].op.PutOp? && s.jobs[id].version == 1)
  }

  lemma UnmarkedVersion(c: Config, s: State, k: Key, now: real)
    requires Homed(c, s) && (CellAt(c, s, k).mark.None? || SelfEvicts(ShardAt(c, s, k), k))
    ensures Get(ShardAt(c, s, k).marks, k) == 0 && PutVersion(ShardAt(c, s, k), k, now) == 1
  {
    assert Home(c, ShardAt(c, s, k), c.route(k)) && Tidy(CellAt(c, s, k));
  }

  /** The self-evicting put itself. */
  lemma SelfEvictionUnmarks(c: Config, s: State, put: Step, s': State)
    requires Homed(c, s) && put.PutStep? && Takes(c, s, put, s') && SelfEvicts(ShardAt(c, s, put.key), put.key)
    ensures Unmarked(c, s', put.key, |s.log|) && |s.log| in s'.jobs
  {
    StepHomed(c, s, put, s');
    SelfEvictsIffNotGentle(c, s, put.key, put.value, put.ttl, put.now);
    SelfEvictionPrunes(ShardAt(c, s, put.key), put.key, put.value, put.ttl, put.now, c.defaultTtl);
    UnmarkedVersion(c, s, put.key, put.now);
  }

  /** Job `id` is over, or still the same job. */
  predicate SameJob(s: State, s': State, id: nat) {
    && |s.log| <= |s'.log|
    && (id in s'.jobs ==>
          && id in s.jobs && s'.jobs[id].key == s.jobs[id].key
          && s'.jobs[id].op == s.jobs[id].op && s'.jobs[id].version == s.jobs[id].version)
  }

  lemma StaysUnmarked(c: Config, s: State, s': State, k: Key, id: nat)
    requires Unmarked(c, s, k, id) && Homed(c, s') && SameJob(s, s', id) && CellAt(c, s', k).mark.None?
    ensures Unmarked(c, s', k, id)
  {
  }

  /** A region of shard `i` that at most weathers or resolves the cell of `k`. */
  lemma RegionUnmarked(c: Config, s: State, s': State, k: Key, id: nat, i: nat, sh': Shard)
    requires Unmarked(c, s, k, id) && Homed(c, s') && SameJob(s, s', id)
    requires i < c.shardCount && s'.shards == s.shards[i := sh']
    requires CellOf(s.shards[i], k).mark.None? ==> CellOf(sh', k).mark.None?
    ensures Unmarked(c, s', k, id)
  {
    StaysUnmarked(c, s, s', k, id);
  }

  lemma {:induction false} DeleteKeysUnmarked(c: Config, s: State, ks: seq<Key>, k: Key, id: nat)
    requires Shaped(c, s) && k !in ks && id < |s.log|
    ensures CellAt(c, DeleteKeys(c, s, ks), k) == CellAt(c, s, k)
    ensures |s.log| <= |DeleteKeys(c, s, ks).log|
    ensures id in DeleteKeys(c, s, ks).jobs <==> id in s.jobs
    ensures id in s.jobs ==> DeleteKeys(c, s, ks).jobs[id] == s.jobs[id]
    decreases |ks|
  {
    if ks != [] {
      DeleteCells(ShardAt(c, s, ks[0]), ks[0]);
      DeleteKeysUnmarked(c, DeleteFrom(c, s, ks[0]), ks[1..], k, id);
    }
  }

  lemma ClearUnmarked(c: Config, s: State, i: nat, k: Key, id: nat, s': State)
    requires Unmarked(c, s, k, id) && i < c.shardCount && s' == ClearShard(c, s, i) && Homed(c, s')
    ensures Unmarked(c, s', k, id)
  {
    assert Home(c, s.shards[i], i) && Tidy(CellOf(s.shards[i], k));
    assert Home(c, ShardAt(c, s, k), c.route(k)) && Tidy(CellAt(c, s, k));
    assert k !in s.shards[i].order;
    DeleteKeysUnmarked(c, s, s.shards[i].order, k, id);
    StaysUnmarked(c, s, s', k, id);
  }

  lemma PutUnmarked(c: Config, s: State, put: Step, s': State, k: Key, id: nat)
    requires Unmarked(c, s, k, id) && Takes(c, s, put, s') && put.PutStep? && put.key != k
    ensures Unmarked(c, s', k, id)
  {
    StepHomed(c, s, put, s');
    var sh := ShardAt(c, s, put.key);
    assert Home(c, sh, c.route(put.key));
    var sh' := Put(sh, put.key, put.value, put.ttl, put.now, Mode.WriteBack, c.defaultTtl);
    PutChanges(sh, put.key, put.value, put.ttl, put.now, c.defaultTtl);
    assert Weathered(CellOf(sh, k), CellOf(sh', k));
    RegionUnmarked(c, s, s', k, id, c.route(put.key), sh');
  }

  lemma DeleteUnmarked(c: Config, s: State, j: Key, s': State, k: Key, id: nat)
    requires Unmarked(c, s, k, id) && Takes(c, s, DeleteStep(j), s') && j != k
    ensures Unmarked(c, s', k, id)
  {
    StepHomed(c, s, DeleteStep(j), s');
    DeleteCells(ShardAt(c, s, j), j);
    RegionUnmarked(c, s, s', k, id, c.route(j), Delete(ShardAt(c, s, j), j, Mode.WriteBack));
  }

  lemma LookUnmarked(c: Config, s: State, step: Step, s': State, k: Key, id: nat)
    requires Unmarked(c, s, k, id) && Takes(c, s, step, s')
    requires step.ReadStep? || step.InspectStep? || step.ExpireStep?
    ensures Unmarked(c, s', k, id)
  {
    StepHomed(c, s, step, s');
    var i := if step.ExpireStep? then step.shard else c.route(step.key);
    var sh, sh' := s.shards[i], s'.shards[i];
    LookWeathers(c, s, step, s', k, i);
    RegionUnmarked(c, s, s', k, id, i, sh');
  }

  lemma LookWeathers(c: Config, s: State, step: Step, s': State, k: Key, i: nat)
    requires Takes(c, s, step, s') && i < c.shardCount
    requires step.ReadStep? || step.InspectStep? || step.ExpireStep?
    requires i == if step.ExpireStep? then step.shard else c.route(step.key)
    ensures |s'.shards| == c.shardCount && Weathered(CellOf(s.shards[i], k), CellOf(s'.shards[i], k))
  {
    var sh, sh' := s.shards[i], s'.shards[i];
    match step
    case ReadStep(j, touch, now) => ReadWeathers(sh, j, touch, now, sh', k);
    case InspectStep(j, now) => LazyExpireCells(sh, j, now);
    case ExpireStep(_, now) => ExpireWeathers(sh, now, sh', k);
  }

  lemma ReadWeathers(sh: Shard, j: Key, touch: bool, now: real, sh': Shard, k: Key)
    requires sh' == Read(sh, j, touch, now).1
    ensures Weathered(CellOf(sh, k), CellOf(sh', k))
  {
    ReadCells(sh, j, touch, now);
  }

  predicate Ends(step: Step) {
    step.RejectStep? || step.SkipStep? || step.RetryDroppedStep? || step.GiveUpStep? || step.FinishStep?
  }

  lemma MoveUnmarked(c: Config, s: State, step: Step, s': State, k: Key, id: nat)
    requires Unmarked(c, s, k, id) && Takes(c, s, step, s') && Internal(step) && !Ends(step)
    ensures Unmarked(c, s', k, id)
  {
    assert s'.shards == s.shards && SameJob(s, s', id);
    StepHomed(c, s, step, s');
    StaysUnmarked(c, s, s', k, id);
  }

  lemma EndUnmarked(c: Config, s: State, step: Step, s': State, k: Key, id: nat)
    requires Unmarked(c, s, k, id) && Takes(c, s, step, s') && Ends(step)
    ensures Unmarked(c, s', k, id)
  {
    var job := s.jobs[step.id];
    var sh := ShardAt(c, s, job.key);
    var cleaned := if step.FinishStep? then CleanedBy(sh, job) else sh;
    assert s'.shards == s.shards[c.route(job.key) := Resolve(cleaned, job.key)] && SameJob(s, s', id);
    StepHomed(c, s, step, s');
    ResolveUnmarked(sh, job, cleaned, k);
    RegionUnmarked(c, s, s', k, id, c.route(job.key), Resolve(cleaned, job.key));
  }

  lemma ResolveUnmarked(sh: Shard, job: Job, cleaned: Shard, k: Key)
    requires cleaned == sh || cleaned == CleanedBy(sh, job)
    ensures CellOf(sh, k).mark.None? ==> CellOf(Resolve(cleaned, job.key), k).mark.None?
  {
    MarkCleanCells(sh, job.key, job.version);
    ResolveCells(cleaned, job.key);
  }

  lemma StepUnmarked(c: Config, s: State, step: Step, s': State, k: Key, id: nat)
    requires Unmarked(c, s, k, id) && Takes(c, s, step, s') && !Writes(step, k)
    ensures Unmarked(c, s', k, id)
  {
    if Ends(step) {
      EndUnmarked(c, s, step, s', k, id);
    } else if Internal(step) {
      MoveUnmarked(c, s, step, s', k, id);
    } else if step.PutStep? {
      PutUnmarked(c, s, step, s', k, id);
    } else if step.DeleteStep? {
      DeleteUnmarked(c, s, step.key, s', k, id);
    } else if step.ClearStep? {
      StepHomed(c, s, step, s');
      ClearUnmarked(c, s, step.shard, k, id, s');
    } else {
      LookUnmarked(c, s, step, s', k, id);
    }
  }

  ghost predicate SelfEvictsAt(c: Config, s: State, step: Step) {
    Shaped(c, s) && step.PutStep? && SelfEvicts(ShardAt(c, s, step.key), step.key)
  }

  /** From a self-evicting put on, its key has no mark until it is written again. */
  lemma {:induction false} UnmarkedUntilWritten(c: Config, source: map<Key, Value>, r: Run<State, Step>, n: nat, m: nat)
    requires Execution(c, source, r) && n < m <= |r.steps| && SelfEvictsAt(c, r.states[n], r.steps[n])
    requires forall i :: n < i < m ==> !Writes(r.steps[i], r.steps[n].key)
    ensures Unmarked(c, r.states[m], r.steps[n].key, |r.states[n].log|)
    decreases m
  {
    var k, id := r.steps[n].key, |r.states[n].log|;
    assert Takes(c, r.states[m - 1], r.steps[m - 1], r.states[m - 1 + 1]);
    if m == n + 1 {
      HomedAt(c, source, r, n);
      SelfEvictionUnmarks(c, r.states[n], r.steps[n], r.states[m]);
    } else {
      UnmarkedUntilWritten(c, source, r, n, m - 1);
      StepUnmarked(c, r.states[m - 1], r.steps[m - 1], r.states[m], k, id);
    }
  }

  lemma WriteRestarts(c: Config, s: State, step: Step, s': State, k: Key, id: nat)
    requires Unmarked(c, s, k, id) && Takes(c, s, step, s') && Writes(step, k)
    ensures |s.log| in s'.jobs && s'.jobs[|s.log|].key == k && s'.jobs[|s.log|].version == 1
    ensures step.PutStep? ==> s'.jobs[|s.log|].op == PutOp(step.value)
    ensures SameJob(s, s', id) && (id in s.jobs ==> id in s'.jobs)
  {
    if step.PutStep? { UnmarkedVersion(c, s, k, step.now); } else { UnmarkedVersion(c, s, k, 0.0); }
  }

  /**
    The next write of a key after a self-evicting put repeats its version.  While the job of
    that put is outstanding there are two jobs of the key with one version, and if the next
    write is a put the stale check cannot tell them apart.
   */
  lemma SelfEvictionRestartsVersions(c: Config, source: map<Key, Value>, r: Run<State, Step>, n: nat, m: nat)
    requires Execution(c, source, r) && n < m < |r.steps| && SelfEvictsAt(c, r.states[n], r.steps[n])
    requires (forall i :: n < i < m ==> !Writes(r.steps[i], r.steps[n].key)) && Writes(r.steps[m], r.steps[n].key)
    requires |r.states[n].log| in r.states[m].jobs
    ensures var s := r.states[m + 1];
            var older, newer := |r.states[n].log|, |r.states[m].log|;
            && older < newer && older in s.jobs && newer in s.jobs
            && s.jobs[older].key == s.jobs[newer].key == r.steps[n].key
            && s.jobs[older].version == s.jobs[newer].version
            && (r.steps[m].PutStep? ==> Shaped(c, s) && (Stale(c, s, s.jobs[older]) <==> Stale(c, s, s.jobs[newer])))
  {
    var k, id := r.steps[n].key, |r.states[n].log|;
    UnmarkedUntilWritten(c, source, r, n, m);
    assert Takes(c, r.states[m], r.steps[m], r.states[m + 1]);
    WriteRestarts(c, r.states[m], r.steps[m], r.states[m + 1], k, id);
  }

  // ---------------------------------------------------------------- the write alone is lost

  /** The source says the same about `k`. */
  predicate SourceKept(source: map<Key, Value>, s: State, k: Key) {
    (k in s.source <==> k in source) && (k in source ==> s.source[k] == source[k])
  }

  /** Job `id` is the only one of `k`, has not passed its stale check, and the source is as it was. */
  ghost predicate Stillborn(c: Config, s: State, k: Key, id: nat, source: map<Key, Value>) {
    && Unmarked(c, s, k, id)
    && (forall i :: i in s.jobs && s.jobs[i].key == k ==> i == id)
    && (id in s.jobs ==> !s.jobs[id].place.Passed? && !s.jobs[id].place.Applied?)
    && SourceKept(source, s, k)
  }

  lemma UnmarkedIsStale(c: Config, s: State, k: Key, id: nat)
    requires Unmarked(c, s, k, id) && id in s.jobs
    ensures Stale(c, s, s.jobs[id])
  {
  }

  lemma StillbornStep(c: Config, s: State, step: Step, s': State, k: Key, id: nat, source: map<Key, Value>)
    requires Stillborn(c, s, k, id, source) && Takes(c, s, step, s') && Lossless(step)
    ensures Stillborn(c, s', k, id, source)
  {
    StepUnmarked(c, s, step, s', k, id);
    if id in s.jobs { UnmarkedIsStale(c, s, k, id); }
    StillbornJobs(c, s, step, s', k, id, source);
  }

  lemma StillbornJobs(c: Config, s: State, step: Step, s': State, k: Key, id: nat, source: map<Key, Value>)
    requires Takes(c, s, step, s') && Lossless(step) && SourceKept(source, s, k)
    requires forall i :: i in s.jobs && s.jobs[i].key == k ==> i == id
    requires id in s.jobs ==> !s.jobs[id].place.Passed? && !s.jobs[id].place.Applied? && Stale(c, s, s.jobs[id])
    ensures forall i :: i in s'.jobs && s'.jobs[i].key == k ==> i == id
    ensures id in s'.jobs ==> !s'.jobs[id].place.Passed? && !s'.jobs[id].place.Applied?
    ensures SourceKept(source, s', k)
  {
  }

  ghost function StillbornIn(c: Config, k: Key, id: nat, source: map<Key, Value>): State -> bool {
    s => Stillborn(c, s, k, id, source)
  }

  lemma NoJobWithoutPending(c: Config, s: State, k: Key)
    requires Booked(c, s) && Get(ShardAt(c, s, k).pending, k) == 0
    ensures forall id :: id in s.jobs ==> id < |s.log| && s.jobs[id].key != k
  {
    assert PendingAt(c, s, k);
    forall id | id in s.jobs ensures s.jobs[id].key != k {
      assert s.jobs[id].key == k ==> id in Out(s.jobs, k);
    }
  }

  lemma StillbornStart(c: Config, s: State, put: Step, s': State)
    requires Homed(c, s) && SelfEvictsAt(c, s, put) && Takes(c, s, put, s')
    requires forall id :: id in s.jobs ==> id < |s.log| && s.jobs[id].key != put.key
    ensures Stillborn(c, s', put.key, |s.log|, s.source)
  {
    SelfEvictionUnmarks(c, s, put, s');
  }

  lemma StillbornIsInductive(c: Config, k: Key, id: nat, source: map<Key, Value>)
    ensures Inductive(LosslessSteps(c), StillbornIn(c, k, id, source))
  {
    forall s, step, s' | StillbornIn(c, k, id, source)(s) && LosslessSteps(c)(s, step, s')
      ensures StillbornIn(c, k, id, source)(s')
    {
      StillbornStep(c, s, step, s', k, id, source);
    }
  }

  /**
    Any execution that ends with a self-evicting put can drain so that the write is lost
    without any error: no flush of the key is outstanding, none was given up, and the source
    says of the key what it said before.
   */
  lemma SelfEvictedWriteIsLost(c: Config, source: map<Key, Value>, r: Run<State, Step>, put: Step)
    returns (r': Run<State, Step>)
    requires Execution(c, source, r) && c.workers >= 1
    requires SelfEvictsAt(c, Final(r), put) && ValidTtl(put.ttl)
    ensures Execution(c, source, r') && Quiescent(Final(r'), put.key)
    ensures Final(r').log == Final(r).log + [Write(put.key, PutOp(put.value))]
    ensures SourceKept(Final(r).source, Final(r'), put.key)
  {
    var s, k, id := Final(r), put.key, |Final(r).log|;
    AlwaysHomed(c, source, r);
    AlwaysBooked(c, source, r);
    NoJobWithoutPending(c, s, k);
    LastAppend(s.log, Write(k, PutOp(put.value)));
    r' := Extend(c, source, r, put);
    StillbornStart(c, s, put, Final(r'));
    StillbornIsInductive(c, k, id, s.source);
    r' := Drain(c, source, r', StillbornIn(c, k, id, s.source));
  }
}
