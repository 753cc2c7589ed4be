/**
  Bookkeeping of the write-back protocol, in every execution: pending counts, job accounting,
  and why the protocol drains.
 */
module WriteBackAccounts {
  import opened Prelude
  import opened Shards
  import opened Runs
  import opened WriteBack
  import opened WriteBackInvariant

  predicate Client(step: Step) {
    step.PutStep? || step.DeleteStep? || step.ClearStep?
  }

  function Subject(s: State, step: Step): nat
    requires Internal(step) && (step.TakeStep? ==> s.queue != [])
  {
    if step.TakeStep? then s.queue[0] else step.id
  }

  ghost predicate Balanced(s: State) {
    && |s.log| == s.counts.applied + s.counts.skipped + s.counts.rejected + s.counts.givenUp + |s.jobs|
    && forall id :: id in s.jobs ==> id < |s.log|
  }

  lemma MoveBalanced(s: State, s': State, id: nat, job: Job)
    requires Balanced(s) && id in s.jobs
    requires s'.log == s.log && s'.counts == s.counts && s'.jobs == s.jobs[id := job]
    ensures Balanced(s')
  {
    assert s'.jobs.Keys == s.jobs.Keys;
    assert |s'.jobs| == |s'.jobs.Keys| == |s.jobs.Keys|;
  }

  lemma SettleBalanced(s: State, s': State, id: nat)
    requires Balanced(s) && id in s.jobs && s'.log == s.log && s'.jobs == s.jobs - {id}
    requires s'.counts.applied + s'.counts.skipped + s'.counts.rejected + s'.counts.givenUp
          == s.counts.applied + s.counts.skipped + s.counts.rejected + s.counts.givenUp + 1
    ensures Balanced(s')
  {
    assert s'.jobs.Keys == s.jobs.Keys - {id};
    assert |s'.jobs| == |s'.jobs.Keys|;
  }

  lemma InternalBalanced(c: Config, s: State, step: Step)
    requires Shaped(c, s) && Enabled(c, s, step) && Balanced(s) && Internal(step)
    ensures Balanced(Do(c, s, step))
  {
    var s' := Do(c, s, step);
    var id := Subject(s, step);
    if id in s'.jobs {
      MoveBalanced(s, s', id, s'.jobs[id]);
    } else {
      SettleBalanced(s, s', id);
    }
  }

  /** Every job ever created was applied, skipped as stale, rejected or given up, or is outstanding. */
  lemma JobsAreConserved(c: Config, source: map<Key, Value>, r: Run<State, Step>)
    requires Execution(c, source, r)
    ensures var s := Final(r);
            |s.log| == s.counts.applied + s.counts.skipped + s.counts.rejected + s.counts.givenUp + |s.jobs|
  {
    AlwaysBooked(c, source, r);
  }

  // ---------------------------------------------------------------- pending counts and the queue

  predicate PendingAt(c: Config, s: State, k: Key)
    requires Shaped(c, s)
  {
    Get(ShardAt(c, s, k).pending, k) == |Out(s.jobs, k)|
  }

  /** What holds in every execution, self-evicting puts included. */
  ghost predicate Booked(c: Config, s: State) {
    && Shaped(c, s)
    && Balanced(s)
    && Lined(s.jobs, s.queue)
    && (forall id :: id in s.lost ==> id < |s.log|)
    && forall k :: PendingAt(c, s, k)
  }

  lemma OutAdded(jobs: map<nat, Job>, id: nat, job: Job, k: Key)
    requires id !in jobs
    ensures |Out(jobs[id := job], k)| == |Out(jobs, k)| + if job.key == k then 1 else 0
  {
    assert Out(jobs[id := job], k) == Out(jobs, k) + (if job.key == k then {id} else {});
  }

  lemma OutRemoved(jobs: map<nat, Job>, id: nat, k: Key)
    requires id in jobs
    ensures |Out(jobs - {id}, k)| == |Out(jobs, k)| - if jobs[id].key == k then 1 else 0
  {
    assert Out(jobs - {id}, k) == Out(jobs, k) - (if jobs[id].key == k then {id} else {});
    assert jobs[id].key == k ==> id in Out(jobs, k);
  }

  lemma BalancedWrite(s: State, s': State, w: Write, job: Job)
    requires Balanced(s) && s'.log == s.log + [w] && s'.jobs == s.jobs[|s.log| := job] && s'.counts == s.counts
    ensures Balanced(s')
  {
    assert s'.jobs.Keys == s.jobs.Keys + {|s.log|};
    assert |s'.jobs| == |s'.jobs.Keys| == |s.jobs.Keys| + 1;
  }

  lemma LinedWrite(s: State, job: Job)
    requires Balanced(s) && Lined(s.jobs, s.queue) && job.place == Created
    ensures Lined(s.jobs[|s.log| := job], s.queue)
  {
  }

  /** A write registers one pending flush, that of the job it creates. */
  lemma RecordBooked(c: Config, s: State, k: Key, op: Op, version: nat, sh': Shard, s': State)
    requires Booked(c, s) && s' == Record(c, s, k, op, version, sh')
    requires sh'.pending == ShardAt(c, s, k).pending[k := Get(ShardAt(c, s, k).pending, k) + 1]
    ensures Booked(c, s')
  {
    var job := s'.jobs[|s.log|];
    BalancedWrite(s, s', Write(k, op), job);
    LinedWrite(s, job);
    forall j ensures PendingAt(c, s', j) {
      assert PendingAt(c, s, j);
      OutAdded(s.jobs, |s.log|, job, j);
    }
  }

  lemma DeletePending(sh: Shard, k: Key)
    ensures Delete(sh, k, Mode.WriteBack).pending == sh.pending[k := Get(sh.pending, k) + 1]
  {
  }

  lemma PutBooked(c: Config, s: State, k: Key, v: Value, ttl: TtlArg, now: real, s': State)
    requires Booked(c, s) && s' == PutTo(c, s, k, v, ttl, now)
    ensures Booked(c, s')
  {
    var sh := ShardAt(c, s, k);
    var sh' := Put(sh, k, v, ttl, now, Mode.WriteBack, c.defaultTtl);
    PutPending(sh, k, v, ttl, now, c.defaultTtl);
    assert sh'.pending == sh.pending[k := Get(sh.pending, k) + 1];
    RecordBooked(c, s, k, PutOp(v), PutVersion(sh, k, now), sh', s');
  }

  lemma DeleteBooked(c: Config, s: State, k: Key, s': State)
    requires Booked(c, s) && s' == DeleteFrom(c, s, k)
    ensures Booked(c, s')
  {
    var sh := ShardAt(c, s, k);
    var sh' := Delete(sh, k, Mode.WriteBack);
    DeletePending(sh, k);
    assert sh'.pending == sh.pending[k := Get(sh.pending, k) + 1];
    RecordBooked(c, s, k, DeleteOp, Get(sh.marks, k) + 1, sh', s');
  }

  lemma {:induction false} DeleteKeysBooked(c: Config, s: State, ks: seq<Key>)
    requires Booked(c, s)
    ensures Booked(c, DeleteKeys(c, s, ks))
    decreases |ks|
  {
    if ks != [] {
      DeleteBooked(c, s, ks[0], DeleteFrom(c, s, ks[0]));
      DeleteKeysBooked(c, DeleteFrom(c, s, ks[0]), ks[1..]);
    }
  }

  /** A region that registers and resolves nothing. */
  lemma QuietBooked(c: Config, s: State, i: nat, sh': Shard, s': State)
    requires Booked(c, s) && i < c.shardCount && sh'.pending == s.shards[i].pending
    requires s' == s.(shards := s.shards[i := sh'])
    ensures Booked(c, s')
  {
    forall k ensures PendingAt(c, s', k) {
      assert PendingAt(c, s, k);
    }
  }

  lemma ReadPending(sh: Shard, k: Key, touch: bool, now: real)
    ensures Read(sh, k, touch, now).1.pending == sh.pending
  {
  }

  lemma ClientBooked(c: Config, s: State, step: Step, s': State)
    requires Booked(c, s) && Enabled(c, s, step) && !Internal(step) && s' == Do(c, s, step)
    ensures Booked(c, s')
  {
    match step
    case PutStep(k, v, ttl, now) => PutBooked(c, s, k, v, ttl, now, s');
    case DeleteStep(k) => DeleteBooked(c, s, k, s');
    case ClearStep(i) =>
      var emptied := DeleteKeys(c, s, s.shards[i].order);
      DeleteKeysBooked(c, s, s.shards[i].order);
      QuietBooked(c, emptied, i, emptied.shards[i].(policy := s'.shards[i].policy), s');
    case ReadStep(k, touch, now) =>
      ReadPending(ShardAt(c, s, k), k, touch, now);
      QuietBooked(c, s, c.route(k), Read(ShardAt(c, s, k), k, touch, now).1, s');
    case InspectStep(k, now) => QuietBooked(c, s, c.route(k), LazyExpire(ShardAt(c, s, k), k, now), s');
    case ExpireStep(i, now) => QuietBooked(c, s, i, ExpireAll(s.shards[i], now), s');
  }

  /** A job moves to another place and stays outstanding. */
  lemma MoveBooked(c: Config, s: State, s': State, id: nat, job: Job)
    requires Booked(c, s) && id in s.jobs && job.key == s.jobs[id].key
    requires s' == s.(jobs := s.jobs[id := job], queue := s'.queue, source := s'.source, applied := s'.applied)
    requires Lined(s'.jobs, s'.queue)
    ensures Booked(c, s')
  {
    MoveBalanced(s, s', id, job);
    forall k ensures PendingAt(c, s', k) {
      assert PendingAt(c, s, k);
      assert Out(s'.jobs, k) == Out(s.jobs, k);
    }
  }

  /** A job that is over resolves the pending flush it was counted for. */
  lemma SettleBooked(c: Config, s: State, s': State, id: nat, sh': Shard)
    requires Booked(c, s) && id in s.jobs && s.jobs[id].place != Queued && Balanced(s')
    requires Released(ShardAt(c, s, s.jobs[id].key), s.jobs[id].key, sh')
    requires s' == s.(shards := s.shards[c.route(s.jobs[id].key) := sh'],
                      jobs := s.jobs - {id}, lost := s'.lost, counts := s'.counts)
    requires s'.lost <= s.lost + {id}
    ensures Booked(c, s')
  {
    forall j ensures PendingAt(c, s', j) {
      assert PendingAt(c, s, j);
      OutRemoved(s.jobs, id, j);
    }
  }

  /** One pending flush of `k` less, if there was one. */
  ghost predicate Released(sh: Shard, k: Key, sh': Shard) {
    forall j :: Get(sh'.pending, j) ==
      if j == k && Get(sh.pending, j) > 0 then Get(sh.pending, j) - 1 else Get(sh.pending, j)
  }

  lemma ResolveReleases(sh: Shard, k: Key, cleaned: Shard)
    requires cleaned.pending == sh.pending
    ensures Released(sh, k, Resolve(cleaned, k))
  {
  }

  lemma QueueBooked(c: Config, s: State, step: Step, s': State)
    requires Booked(c, s) && Enabled(c, s, step) && s' == Do(c, s, step)
    requires step.EnqueueStep? || step.RetryStep? || step.TakeStep?
    ensures Booked(c, s')
  {
    if step.TakeStep? {
      assert s.queue == [s.queue[0]] + s.queue[1..];
      MoveBooked(c, s, s', s.queue[0], s'.jobs[s.queue[0]]);
    } else {
      NoDupSnoc(s.queue, step.id);
      MoveBooked(c, s, s', step.id, s'.jobs[step.id]);
    }
  }

  lemma JobBooked(c: Config, s: State, step: Step, s': State)
    requires Booked(c, s) && Enabled(c, s, step) && Internal(step) && s' == Do(c, s, step)
    ensures Booked(c, s')
  {
    if step.EnqueueStep? || step.RetryStep? || step.TakeStep? {
      QueueBooked(c, s, step, s');
    } else if step.PassStep? || step.ApplyStep? {
      MoveBooked(c, s, s', step.id, s'.jobs[step.id]);
    } else {
      EndBooked(c, s, step, s');
    }
  }

  lemma EndBooked(c: Config, s: State, step: Step, s': State)
    requires Booked(c, s) && Enabled(c, s, step) && s' == Do(c, s, step)
    requires step.RejectStep? || step.SkipStep? || step.RetryDroppedStep? || step.GiveUpStep? || step.FinishStep?
    ensures Booked(c, s')
  {
    var job := s.jobs[step.id];
    var sh := ShardAt(c, s, job.key);
    var cleaned := if step.FinishStep? then CleanedBy(sh, job) else sh;
    InternalBalanced(c, s, step);
    ResolveReleases(sh, job.key, cleaned);
    SettleBooked(c, s, s', step.id, Resolve(cleaned, job.key));
  }

  lemma StepBooked(c: Config, s: State, step: Step, s': State)
    requires Booked(c, s) && Takes(c, s, step, s')
    ensures Booked(c, s')
  {
    if Internal(step) { JobBooked(c, s, step, s'); } else { ClientBooked(c, s, step, s'); }
  }

  ghost function BookedIn(c: Config): State -> bool {
    s => Booked(c, s)
  }

  lemma BookedIsInductive(c: Config)
    ensures Inductive(Steps(c), BookedIn(c))
  {
    forall s, step, s' | BookedIn(c)(s) && Steps(c)(s, step, s') ensures BookedIn(c)(s') {
      StepBooked(c, s, step, s');
    }
  }

  lemma InitBooked(c: Config, source: map<Key, Value>)
    requires ValidConfig(c)
    ensures Booked(c, Init(c, source))
  {
    var s := Init(c, source);
    forall k ensures PendingAt(c, s, k) {
      assert Out(s.jobs, k) == {};
    }
  }

  lemma AlwaysBooked(c: Config, source: map<Key, Value>, r: Run<State, Step>)
    requires Execution(c, source, r)
    ensures Booked(c, Final(r))
  {
    InitBooked(c, source);
    BookedIsInductive(c);
    Invariance(Steps(c), BookedIn(c), r, |r.steps|);
  }

  /** `pending_flushes[k]` is the number of jobs of `k` that are created, queued or held. */
  lemma PendingIsExact(c: Config, source: map<Key, Value>, r: Run<State, Step>, k: Key)
    requires Execution(c, source, r)
    ensures var s := Final(r);
            Get(ShardAt(c, s, k).pending, k) == |Out(s.jobs, k)|
  {
    AlwaysBooked(c, source, r);
    assert PendingAt(c, Final(r), k);
  }

  // ---------------------------------------------------------------- draining

  /** How many internal steps a job can still take part in. */
  function Weight(job: Job): nat {
    4 * job.retriesLeft +
    match job.place
    case Created => 5
    case Queued => 4
    case Taken(_) => 3
    case Passed(_) => 2
    case Applied(_) => 1
  }

  /** How often a job can still be taken from the queue. */
  function Tries(job: Job): nat {
    job.retriesLeft + if job.place.Created? || job.place.Queued? then 1 else 0
  }

  /** The summed measure of the outstanding jobs with index below `n`. */
  function Total(measure: Job -> nat, jobs: map<nat, Job>, n: nat): nat {
    if n == 0 then 0 else Total(measure, jobs, n - 1) + (if n - 1 in jobs then measure(jobs[n - 1]) else 0)
  }

  function At0(measure: Job -> nat, jobs: map<nat, Job>, id: nat): nat {
    if id in jobs then measure(jobs[id]) else 0
  }

  lemma {:induction false} TotalChange(measure: Job -> nat, jobs: map<nat, Job>, jobs': map<nat, Job>, id: nat, n: nat)
    requires forall i :: i != id ==> (i in jobs <==> i in jobs') && (i in jobs ==> jobs'[i] == jobs[i])
    ensures Total(measure, jobs', n) - Total(measure, jobs, n) ==
            if id < n then At0(measure, jobs', id) - At0(measure, jobs, id) else 0
  {
    if n > 0 { TotalChange(measure, jobs, jobs', id, n - 1); }
  }

  /** One internal step changes one job: its weight falls, and its tries fall when it is taken. */
  lemma InternalStep(c: Config, s: State, step: Step)
    requires Shaped(c, s) && Enabled(c, s, step) && Internal(step)
    ensures var id := Subject(s, step);
            var jobs := s.jobs;
            var jobs' := Do(c, s, step).jobs;
            && Do(c, s, step).log == s.log
            && id in jobs
            && (forall i :: i != id ==> (i in jobs <==> i in jobs') && (i in jobs ==> jobs'[i] == jobs[i]))
            && At0(Weight, jobs', id) < At0(Weight, jobs, id)
            && At0(Tries, jobs', id) + (if step.TakeStep? then 1 else 0) <= At0(Tries, jobs, id)
  {
  }

  lemma DrainStep(c: Config, s: State, step: Step)
    requires Shaped(c, s) && Enabled(c, s, step) && Balanced(s) && !Client(step)
    ensures var s' := Do(c, s, step);
            var n := |s.log|;
            && s'.log == s.log
            && Total(Weight, s'.jobs, n) + (if Internal(step) then 1 else 0) <= Total(Weight, s.jobs, n)
            && Total(Tries, s'.jobs, n) + (if step.TakeStep? then 1 else 0) <= Total(Tries, s.jobs, n)
  {
    if Internal(step) {
      InternalStep(c, s, step);
      var s' := Do(c, s, step);
      TotalChange(Weight, s.jobs, s'.jobs, Subject(s, step), |s.log|);
      TotalChange(Tries, s.jobs, s'.jobs, Subject(s, step), |s.log|);
    }
  }

  predicate IsTake(step: Step) {
    step.TakeStep?
  }

  function WeightLeft(s: State): nat {
    Total(Weight, s.jobs, |s.log|)
  }

  function TriesLeft(s: State): nat {
    Total(Tries, s.jobs, |s.log|)
  }

  /** Steps of a cache that no client writes to. */
  ghost function IdleSteps(c: Config): (State, Step, State) -> bool {
    (s, step, s') => Takes(c, s, step, s') && !Client(step)
  }

  ghost function DrainSteps(c: Config): (State, Step, State) -> bool {
    (s, step, s') => Takes(c, s, step, s') && !Client(step) && Booked(c, s)
  }

  lemma IdleStep(c: Config, s: State, step: Step, s': State)
    requires Takes(c, s, step, s') && !Client(step) && Booked(c, s)
    ensures WeightLeft(s') + (if Internal(step) then 1 else 0) <= WeightLeft(s)
    ensures TriesLeft(s') + (if IsTake(step) then 1 else 0) <= TriesLeft(s)
  {
    DrainStep(c, s, step);
  }

  lemma WeightRanks(c: Config)
    ensures Ranks(DrainSteps(c), Internal, WeightLeft)
  {
    forall s, step, s' | DrainSteps(c)(s, step, s')
      ensures WeightLeft(s') + (if Internal(step) then 1 else 0) <= WeightLeft(s)
    {
      IdleStep(c, s, step, s');
    }
  }

  lemma TriesRank(c: Config)
    ensures Ranks(DrainSteps(c), IsTake, TriesLeft)
  {
    forall s, step, s' | DrainSteps(c)(s, step, s')
      ensures TriesLeft(s') + (if IsTake(step) then 1 else 0) <= TriesLeft(s)
    {
      IdleStep(c, s, step, s');
    }
  }

  lemma IdleStepsStayBooked(c: Config)
    ensures Inductive(IdleSteps(c), BookedIn(c))
  {
    forall s, step, s' | BookedIn(c)(s) && IdleSteps(c)(s, step, s') ensures BookedIn(c)(s') {
      StepBooked(c, s, step, s');
    }
  }

  /** Steps by which no job is rejected or gives up. */
  predicate Lossless(step: Step) {
    step.EnqueueStep? || step.TakeStep? || step.SkipStep? || step.PassStep? || step.ApplyStep? || step.FinishStep?
  }

  /** While a job is outstanding, a cache with a worker can move, and without giving up a job. */
  lemma Progress(c: Config, s: State) returns (step: Step)
    requires Booked(c, s) && c.workers >= 1 && s.jobs != map[]
    ensures Enabled(c, s, step) && Lossless(step)
  {
    if id :| id in s.jobs && Held(s.jobs[id].place) {
      match s.jobs[id].place
      case Taken(_) => step := if Stale(c, s, s.jobs[id]) then SkipStep(id) else PassStep(id);
      case Passed(_) => step := ApplyStep(id);
      case Applied(_) => step := FinishStep(id);
    } else if s.queue != [] {
      HeadIsMember(s.queue);
      step := TakeStep(0);
    } else {
      var id :| id in s.jobs;
      step := EnqueueStep(id);
    }
  }

  /** No queue or worker step can be taken. */
  ghost predicate AtRest(c: Config, s: State)
    requires Shaped(c, s)
  {
    forall step :: Internal(step) ==> !Enabled(c, s, step)
  }

  lemma AtRestIffDrained(c: Config, s: State)
    requires Booked(c, s) && c.workers >= 1
    ensures AtRest(c, s) <==> s.jobs == map[]
  {
    if s.jobs != map[] {
      var step := Progress(c, s);
      assert Internal(step);
    }
  }

  /**
    Once no client writes any more, the outstanding jobs bound what the queue and the workers
    can still do, whatever fails: at most `Weight` steps, and at most one take for each try
    that is left.  With a worker they come to rest exactly when no job is outstanding, so the
    protocol drains.
   */
  lemma TheProtocolDrains(c: Config, source: map<Key, Value>, r: Run<State, Step>, idle: Run<State, Step>)
    requires Execution(c, source, r) && IsRun(IdleSteps(c), idle) && idle.states[0] == Final(r)
    ensures Count(Internal, idle.steps, |idle.steps|) <= WeightLeft(Final(r))
    ensures Count(IsTake, idle.steps, |idle.steps|) <= TriesLeft(Final(r))
    ensures Shaped(c, Final(idle)) && (c.workers >= 1 ==> (AtRest(c, Final(idle)) <==> Final(idle).jobs == map[]))
  {
    AlwaysBooked(c, source, r);
    IdleStepsStayBooked(c);
    WeightRanks(c);
    TriesRank(c);
    Strengthen(IdleSteps(c), BookedIn(c), DrainSteps(c), idle);
    Ranking(DrainSteps(c), Internal, WeightLeft, idle, |idle.steps|);
    Ranking(DrainSteps(c), IsTake, TriesLeft, idle, |idle.steps|);
    Invariance(IdleSteps(c), BookedIn(c), idle, |idle.steps|);
    if c.workers >= 1 { AtRestIffDrained(c, Final(idle)); }
  }

  // ---------------------------------------------------------------- building runs

  /** An execution extended by one step is an execution, and ends where that step leads. */
  lemma Extend(c: Config, source: map<Key, Value>, r: Run<State, Step>, step: Step) returns (r': Run<State, Step>)
    requires Execution(c, source, r) && Enabled(c, Final(r), step)
    ensures Execution(c, source, r')
    ensures Final(r') == Do(c, Final(r), step)
  {
    r' := Longer(r, step, Do(c, Final(r), step));
    LongerIsRun(Steps(c), r, step, Do(c, Final(r), step));
  }

  ghost function LosslessSteps(c: Config): (State, Step, State) -> bool {
    (s, step, s') => Takes(c, s, step, s') && Lossless(step)
  }

  /** Every execution can be drained without losing a job; `keep` is whatever such steps keep. */
  lemma {:induction false} Drain(c: Config, source: map<Key, Value>, r: Run<State, Step>, keep: State -> bool)
    returns (r': Run<State, Step>)
    requires Execution(c, source, r) && c.workers >= 1
    requires keep(Final(r)) && Inductive(LosslessSteps(c), keep)
    ensures Execution(c, source, r') && Final(r').jobs == map[] && keep(Final(r'))
    ensures Final(r').log == Final(r).log && Final(r').lost == Final(r).lost
    decreases WeightLeft(Final(r))
  {
    r' := r;
    if Final(r).jobs != map[] {
      AlwaysBooked(c, source, r);
      var step := Progress(c, Final(r));
      DrainStep(c, Final(r), step);
      r' := Extend(c, source, r, step);
      assert LosslessSteps(c)(Final(r), step, Final(r'));
      r' := Drain(c, source, r', keep);
    }
  }
}
