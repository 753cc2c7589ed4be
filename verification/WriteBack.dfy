/**
  The write-back protocol as a step system.  Each step is one region the code runs under a
  shard lock, one queue operation or one call into the source; steps of clients and workers
  interleave freely.  Beside the program state the model keeps a ledger: the log of all
  writes, whose index names the job a write creates, the jobs whose operation reached the
  source, the jobs that were given up, and what became of every job.
 */
module WriteBack {
  import opened Prelude
  import opened Policies
  import opened Shards
  import opened Cells
  import opened Runs

  datatype Config = Config(
    capacity: nat,
    shardCount: nat,
    kind: Kind,
    route: Key -> nat,
    workers: nat,
    retries: nat,
    queueSize: nat,
    defaultTtl: Option<real>)

  datatype Write = Write(key: Key, op: Op)

  /** Where an outstanding job is: not yet enqueued, queued, or in a worker's hands. */
  datatype Place =
    | Created
    | Queued
    | Taken(worker: nat)
    | Passed(worker: nat)
    | Applied(worker: nat)

  datatype Job = Job(key: Key, op: Op, version: nat, retriesLeft: nat, attempt: nat, place: Place)

  datatype Counts = Counts(applied: nat, skipped: nat, rejected: nat, givenUp: nat)

  datatype State = State(
    shards: seq<Shard>,
    jobs: map<nat, Job>,
    queue: seq<nat>,
    source: map<Key, Value>,
    log: seq<Write>,
    applied: set<nat>,
    lost: set<nat>,
    counts: Counts)

  datatype Step =
    | PutStep(key: Key, value: Value, ttl: TtlArg, now: real)
    | DeleteStep(key: Key)
    | ClearStep(shard: nat)
    | ReadStep(key: Key, touch: bool, now: real)
    | InspectStep(key: Key, now: real)
    | ExpireStep(shard: nat, now: real)
    | EnqueueStep(id: nat)
    | RejectStep(id: nat)
    | TakeStep(worker: nat)
    | SkipStep(id: nat)
    | PassStep(id: nat)
    | ApplyStep(id: nat)
    | RetryStep(id: nat)
    | RetryDroppedStep(id: nat)
    | GiveUpStep(id: nat)
    | FinishStep(id: nat)

  /** What `CacheConfig` checks, and a routing function that hits the shards. */
  ghost predicate ValidConfig(c: Config) {
    && c.capacity >= c.shardCount >= 1
    && forall k :: c.route(k) < c.shardCount
  }

  function Init(c: Config, source: map<Key, Value>): State
    requires c.shardCount >= 1
  {
    var capacities := ShardCapacities(c.capacity, c.shardCount);
    State(seq(c.shardCount, i requires 0 <= i < c.shardCount => NewShard(capacities[i], c.kind)),
          map[], [], source, [], {}, {}, Counts(0, 0, 0, 0))
  }

  ghost predicate Shaped(c: Config, s: State) {
    ValidConfig(c) && |s.shards| == c.shardCount
  }

  function ShardAt(c: Config, s: State, k: Key): Shard
    requires Shaped(c, s)
  {
    s.shards[c.route(k)]
  }

  function SetShard(c: Config, s: State, k: Key, sh: Shard): (r: State)
    requires Shaped(c, s)
    ensures Shaped(c, r)
  {
    s.(shards := s.shards[c.route(k) := sh])
  }

  predicate Stale(c: Config, s: State, job: Job)
    requires Shaped(c, s)
  {
    IsStale(ShardAt(c, s, job.key).marks, ShardAt(c, s, job.key).tombs, job.key, job.op, job.version)
  }

  predicate Held(p: Place) {
    p.Taken? || p.Passed? || p.Applied?
  }

  predicate At(s: State, id: nat, place: Place) {
    id in s.jobs && s.jobs[id].place == place
  }

  predicate Room(c: Config, s: State) {
    c.queueSize == 0 || |s.queue| < c.queueSize
  }

  // ---------------------------------------------------------------- client steps

  /** A write: its shard region, its log entry and the job it creates. */
  function Record(c: Config, s: State, k: Key, op: Op, version: nat, sh: Shard): (r: State)
    requires Shaped(c, s)
    ensures Shaped(c, r)
  {
    SetShard(c, s, k, sh).(
      log := s.log + [Write(k, op)],
      jobs := s.jobs[|s.log| := Job(k, op, version, c.retries, 0, Created)])
  }

  function PutTo(c: Config, s: State, k: Key, v: Value, ttl: TtlArg, now: real): (r: State)
    requires Shaped(c, s)
    ensures Shaped(c, r)
  {
    var sh := ShardAt(c, s, k);
    Record(c, s, k, PutOp(v), PutVersion(sh, k, now), Put(sh, k, v, ttl, now, Mode.WriteBack, c.defaultTtl))
  }

  function DeleteFrom(c: Config, s: State, k: Key): (r: State)
    requires Shaped(c, s)
    ensures Shaped(c, r)
  {
    var sh := ShardAt(c, s, k);
    Record(c, s, k, DeleteOp, Get(sh.marks, k) + 1, Delete(sh, k, Mode.WriteBack))
  }

  function DeleteKeys(c: Config, s: State, ks: seq<Key>): (r: State)
    requires Shaped(c, s)
    ensures Shaped(c, r)
    decreases |ks|
  {
    if ks == [] then s else DeleteKeys(c, DeleteFrom(c, s, ks[0]), ks[1..])
  }

  /** `clear` on one shard: a delete for each of its keys, then the policy forgets everything. */
  function ClearShard(c: Config, s: State, i: nat): (r: State)
    requires Shaped(c, s) && i < c.shardCount
    ensures Shaped(c, r)
  {
    var emptied := DeleteKeys(c, s, s.shards[i].order);
    emptied.(shards := emptied.shards[i := emptied.shards[i].(policy := Fresh(c.kind))])
  }

  // ---------------------------------------------------------------- job steps

  function Move(s: State, id: nat, place: Place): State
    requires id in s.jobs
  {
    s.(jobs := s.jobs[id := s.jobs[id].(place := place)])
  }

  /** The job is over: its pending flush is resolved under the shard lock. */
  function Settle(c: Config, s: State, id: nat): (r: State)
    requires Shaped(c, s) && id in s.jobs
    ensures Shaped(c, r)
  {
    var k := s.jobs[id].key;
    SetShard(c, s, k, Resolve(ShardAt(c, s, k), k)).(jobs := s.jobs - {id})
  }

  function Lose(c: Config, s: State, id: nat): (r: State)
    requires Shaped(c, s) && id in s.jobs
    ensures Shaped(c, r)
  {
    Settle(c, s, id).(lost := s.lost + {id})
  }

  function ApplyOp(source: map<Key, Value>, k: Key, op: Op): map<Key, Value> {
    match op
    case PutOp(v) => source[k := v]
    case DeleteOp => source - {k}
  }

  function CleanedBy(sh: Shard, job: Job): Shard {
    if job.op.PutOp? then MarkClean(sh, job.key, job.version) else sh
  }

  function FinishJob(c: Config, s: State, id: nat): (r: State)
    requires Shaped(c, s) && id in s.jobs
    ensures Shaped(c, r)
  {
    var job := s.jobs[id];
    var cleaned := SetShard(c, s, job.key, CleanedBy(ShardAt(c, s, job.key), job));
    Settle(c, cleaned, id).(counts := s.counts.(applied := s.counts.applied + 1))
  }

  // ---------------------------------------------------------------- the step relation

  /** Steps of the job machinery, as opposed to client calls and expiry. */
  predicate Internal(step: Step) {
    step.EnqueueStep? || step.RejectStep? || step.TakeStep? || step.SkipStep? || step.PassStep?
    || step.ApplyStep? || step.RetryStep? || step.RetryDroppedStep? || step.GiveUpStep? || step.FinishStep?
  }

  predicate Enabled(c: Config, s: State, step: Step)
    requires Shaped(c, s)
  {
    match step
    case PutStep(_, _, ttl, _) => ValidTtl(ttl)
    case DeleteStep(_) => true
    case ClearStep(i) => i < c.shardCount
    case ReadStep(_, _, _) => true
    case InspectStep(_, _) => true
    case ExpireStep(i, _) => i < c.shardCount
    case EnqueueStep(id) => At(s, id, Created) && Room(c, s)
    case RejectStep(id) => At(s, id, Created) && c.queueSize > 0
    case TakeStep(w) =>
      && w < c.workers
      && (forall id :: id in s.jobs && Held(s.jobs[id].place) ==> s.jobs[id].place.worker != w)
      && s.queue != [] && At(s, s.queue[0], Queued)
    case SkipStep(id) => id in s.jobs && s.jobs[id].place.Taken? && Stale(c, s, s.jobs[id])
    case PassStep(id) => id in s.jobs && s.jobs[id].place.Taken? && !Stale(c, s, s.jobs[id])
    case ApplyStep(id) => id in s.jobs && s.jobs[id].place.Passed?
    case RetryStep(id) =>
      id in s.jobs && s.jobs[id].place.Passed? && s.jobs[id].retriesLeft > 0 && Room(c, s)
    case RetryDroppedStep(id) =>
      id in s.jobs && s.jobs[id].place.Passed? && s.jobs[id].retriesLeft > 0 && c.queueSize > 0
    case GiveUpStep(id) => id in s.jobs && s.jobs[id].place.Passed? && s.jobs[id].retriesLeft == 0
    case FinishStep(id) => id in s.jobs && s.jobs[id].place.Applied?
  }

  function Do(c: Config, s: State, step: Step): (r: State)
    requires Shaped(c, s) && Enabled(c, s, step)
    ensures Shaped(c, r)
  {
    match step
    case PutStep(k, v, ttl, now) => PutTo(c, s, k, v, ttl, now)
    case DeleteStep(k) => DeleteFrom(c, s, k)
    case ClearStep(i) => ClearShard(c, s, i)
    case ReadStep(k, touch, now) => SetShard(c, s, k, Read(ShardAt(c, s, k), k, touch, now).1)
    case InspectStep(k, now) => SetShard(c, s, k, LazyExpire(ShardAt(c, s, k), k, now))
    case ExpireStep(i, now) => s.(shards := s.shards[i := ExpireAll(s.shards[i], now)])
    case EnqueueStep(id) => Move(s, id, Queued).(queue := s.queue + [id])
    case RejectStep(id) => Lose(c, s, id).(counts := s.counts.(rejected := s.counts.rejected + 1))
    case TakeStep(w) => Move(s, s.queue[0], Taken(w)).(queue := s.queue[1..])
    case SkipStep(id) => Settle(c, s, id).(counts := s.counts.(skipped := s.counts.skipped + 1))
    case PassStep(id) => Move(s, id, Passed(s.jobs[id].place.worker))
    case ApplyStep(id) =>
      var job := s.jobs[id];
      Move(s, id, Applied(job.place.worker)).(
        source := ApplyOp(s.source, job.key, job.op),
        applied := s.applied + {id})
    case RetryStep(id) =>
      var job := s.jobs[id];
      s.(jobs := s.jobs[id := job.(place := Queued, retriesLeft := job.retriesLeft - 1, attempt := job.attempt + 1)],
         queue := s.queue + [id])
    case RetryDroppedStep(id) => Lose(c, s, id).(counts := s.counts.(givenUp := s.counts.givenUp + 1))
    case GiveUpStep(id) => Lose(c, s, id).(counts := s.counts.(givenUp := s.counts.givenUp + 1))
    case FinishStep(id) => FinishJob(c, s, id)
  }

  /** The step is not a put that evicts its own key while no older flush of it is pending. */
  predicate Gentle(c: Config, s: State, step: Step)
    requires Shaped(c, s)
  {
    step.PutStep? ==>
      Benign(ShardAt(c, s, step.key), step.key,
             Put(ShardAt(c, s, step.key), step.key, step.value, step.ttl, step.now, Mode.WriteBack, c.defaultTtl))
  }

  // ---------------------------------------------------------------- runs

  ghost predicate Takes(c: Config, s: State, step: Step, s': State) {
    Shaped(c, s) && Enabled(c, s, step) && s' == Do(c, s, step)
  }

  ghost function Steps(c: Config): (State, Step, State) -> bool {
    (s, step, s') => Takes(c, s, step, s')
  }

  ghost function GentleSteps(c: Config): (State, Step, State) -> bool {
    (s, step, s') => Takes(c, s, step, s') && Gentle(c, s, step)
  }

  /** A run of the cache from its creation. */
  ghost predicate Execution(c: Config, source: map<Key, Value>, r: Run<State, Step>) {
    && ValidConfig(c)
    && IsRun(Steps(c), r)
    && r.states[0] == Init(c, source)
    && Shaped(c, Final(r))
  }

  /** An execution in which no put evicts its own unflushed key. */
  ghost predicate History(c: Config, source: map<Key, Value>, r: Run<State, Step>) {
    Execution(c, source, r) && IsRun(GentleSteps(c), r)
  }
}
