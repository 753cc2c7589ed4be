/** The inductive invariant of the write-back protocol, for any number of workers. */
module WriteBackInvariant {
  import opened Prelude
  import opened Policies
  import opened Shards
  import opened Cells
  import opened WriteBack

  /** The index of the newest write to `k`. */
  function Last(log: seq<Write>, k: Key): (r: Option<nat>)
    ensures r.Some? ==> r.value < |log| && log[r.value].key == k
    ensures r.Some? ==> forall i :: r.value < i < |log| ==> log[i].key != k
    ensures r.None? ==> forall i :: 0 <= i < |log| ==> log[i].key != k
  {
    if log == [] then None
    else if log[|log| - 1].key == k then Some(|log| - 1)
    else Last(log[..|log| - 1], k)
  }

  lemma LastAppend(log: seq<Write>, w: Write)
    ensures Last(log + [w], w.key) == Some(|log|)
    ensures forall k :: k != w.key ==> Last(log + [w], k) == Last(log, k)
  {
    assert (log + [w])[..|log|] == log;
  }

  /** The outstanding jobs of `k`. */
  function Out(jobs: map<nat, Job>, k: Key): set<nat> {
    set id | id in jobs && jobs[id].key == k
  }

  function CellAt(c: Config, s: State, k: Key): Cell
    requires Shaped(c, s)
  {
    CellOf(ShardAt(c, s, k), k)
  }

  /** What holds of one key: its metadata, its entry and its outstanding jobs. */
  ghost predicate KeyInv(cell: Cell, k: Key, s: State) {
    var last := Last(s.log, k);
    && cell.pending == |Out(s.jobs, k)|
    && (cell.mark.Some? <==> cell.live.Some? || cell.pending > 0)
    && (cell.mark.Some? ==> last.Some?)
    && (cell.live.Some? ==>
          && cell.live.value.version == cell.mark.value
          && s.log[last.value].op == PutOp(cell.live.value.value)
          && (if cell.live.value.dirty then last.value in s.jobs || last.value in s.lost
              else last.value in s.applied))
    && (cell.tomb.Some? <==> cell.pending > 0 && s.log[last.value].op.DeleteOp?)
    && (cell.tomb.Some? ==> cell.tomb == cell.mark && cell.live.None?)
    && (forall id :: id in Out(s.jobs, k) ==>
          && s.jobs[id].version <= cell.mark.value
          && (s.jobs[id].version == cell.mark.value <==> last == Some(id)))
  }

  /** Each job is the job of its log entry, and one that reached the source is recorded. */
  ghost predicate Logged(jobs: map<nat, Job>, s: State) {
    forall id :: id in jobs ==>
      && id < |s.log|
      && jobs[id].key == s.log[id].key
      && jobs[id].op == s.log[id].op
      && (jobs[id].place.Applied? ==> id in s.applied)
  }

  /** Versions never restart: among the outstanding jobs of a key they grow with the log. */
  ghost predicate Ordered(jobs: map<nat, Job>) {
    forall a, b :: a in jobs && b in jobs && a < b && jobs[a].key == jobs[b].key
      ==> jobs[a].version < jobs[b].version
  }

  /** A worker holds one job at a time. */
  ghost predicate Exclusive(jobs: map<nat, Job>, workers: nat) {
    && (forall id :: id in jobs && Held(jobs[id].place) ==> jobs[id].place.worker < workers)
    && (forall a, b ::
          (a in jobs && b in jobs && Held(jobs[a].place) && Held(jobs[b].place)
           && jobs[a].place.worker == jobs[b].place.worker) ==> a == b)
  }

  /** The queue holds exactly the jobs placed in it, each once. */
  ghost predicate Lined(jobs: map<nat, Job>, queue: seq<nat>) {
    && NoDup(queue)
    && (forall id :: id in queue <==> id in jobs && jobs[id].place == Queued)
  }

  ghost predicate JobsInv(c: Config, s: State) {
    && Logged(s.jobs, s)
    && Ordered(s.jobs)
    && Exclusive(s.jobs, c.workers)
    && Lined(s.jobs, s.queue)
  }

  /** Every shard tracks its keys within capacity, and only keys routed to it. */
  ghost predicate ShardsInv(c: Config, s: State)
    requires Shaped(c, s)
  {
    forall i :: 0 <= i < c.shardCount ==>
      && ShardOk(s.shards[i])
      && KindOf(s.shards[i].policy) == c.kind
      && forall k :: k in s.shards[i].entries ==> c.route(k) == i
  }

  ghost predicate Inv(c: Config, s: State) {
    && Shaped(c, s)
    && ShardsInv(c, s)
    && JobsInv(c, s)
    && forall k :: KeyInv(CellAt(c, s, k), k, s)
  }

  // ---------------------------------------------------------------- one key at a time

  lemma DropKeepsKey(cell: Cell, k: Key, s: State)
    requires KeyInv(cell, k, s)
    ensures KeyInv(Dropped(cell), k, s)
  {
  }

  /** `s'` differs from `s` only in what other keys own. */
  ghost predicate SameFor(k: Key, s: State, s': State) {
    && Last(s'.log, k) == Last(s.log, k)
    && s.log <= s'.log
    && (forall id :: id in s'.jobs && s'.jobs[id].key == k <==> id in s.jobs && s.jobs[id].key == k)
    && (forall id :: id in s.jobs && s.jobs[id].key == k ==> s'.jobs[id].version == s.jobs[id].version)
    && s.applied <= s'.applied
    && s.lost <= s'.lost
  }

  lemma FrameKey(cell: Cell, k: Key, s: State, s': State)
    requires KeyInv(cell, k, s) && SameFor(k, s, s') && JobsInv'(s)
    ensures KeyInv(cell, k, s')
  {
    assert Out(s'.jobs, k) == Out(s.jobs, k);
  }

  ghost predicate JobsInv'(s: State) {
    forall id :: id in s.jobs ==> id < |s.log| && s.jobs[id].key == s.log[id].key
  }

  lemma WriteKey(cell: Cell, k: Key, op: Op, s: State, s': State, cell': Cell, job: Job)
    requires KeyInv(cell, k, s) && JobsInv'(s)
    requires s' == s.(shards := s'.shards, log := s.log + [Write(k, op)], jobs := s.jobs[|s.log| := job])
    requires job.key == k && job.version == Next(cell)
    requires match op
             case PutOp(v) => cell' == Written(cell, v) || (cell' == WrittenAndEvicted(cell) && cell.pending > 0)
             case DeleteOp => cell' == Deleted(cell)
    ensures KeyInv(cell', k, s')
  {
    LastAppend(s.log, Write(k, op));
    assert Out(s'.jobs, k) == Out(s.jobs, k) + {|s.log|};
    assert |s.log| !in Out(s.jobs, k);
  }

  /** The job is stale exactly when a later write to its key exists. */
  lemma StaleIffSuperseded(cell: Cell, sh: Shard, k: Key, s: State, id: nat)
    requires cell == CellOf(sh, k) && KeyInv(cell, k, s) && JobsInv'(s)
    requires id in Out(s.jobs, k) && s.jobs[id].op == s.log[id].op
    ensures IsStale(sh.marks, sh.tombs, k, s.jobs[id].op, s.jobs[id].version) <==> Last(s.log, k) != Some(id)
  {
    assert cell.pending > 0;
  }

  lemma SettleKey(cell: Cell, k: Key, s: State, s': State, id: nat, cell': Cell)
    requires KeyInv(cell, k, s) && JobsInv'(s) && id in Out(s.jobs, k)
    requires s' == s.(shards := s'.shards, jobs := s.jobs - {id}, lost := s'.lost, counts := s'.counts)
    requires s.lost <= s'.lost
    requires || (cell' == Resolved(cell) && (Last(s.log, k) != Some(id) || id in s'.lost))
             || (cell' == Resolved(Cleaned(cell, s.jobs[id].version)) && s.log[id].op.PutOp? && id in s.applied)
             || (cell' == Resolved(cell) && s.log[id].op.DeleteOp?)
    ensures KeyInv(cell', k, s')
  {
    assert Out(s'.jobs, k) == Out(s.jobs, k) - {id};
  }

  // ---------------------------------------------------------------- shards

  /** A region that ran in the shard of `k` kept it in shape and stored at most `k`. */
  ghost predicate Kept(c: Config, k: Key, sh: Shard, sh': Shard) {
    && ShardOk(sh')
    && KindOf(sh'.policy) == KindOf(sh.policy)
    && forall x :: x in sh'.entries ==> x in sh.entries || x == k
  }

  lemma SetShardInv(c: Config, s: State, k: Key, sh': Shard, s': State)
    requires Shaped(c, s) && ShardsInv(c, s) && Kept(c, k, ShardAt(c, s, k), sh')
    requires s'.shards == s.shards[c.route(k) := sh']
    ensures Shaped(c, s') && ShardsInv(c, s')
    ensures forall j :: c.route(j) != c.route(k) ==> CellAt(c, s', j) == CellAt(c, s, j)
    ensures forall j :: c.route(j) == c.route(k) ==> CellAt(c, s', j) == CellOf(sh', j)
  {
  }

  // ---------------------------------------------------------------- steps

  lemma QuietStep(c: Config, s: State, s': State)
    requires Inv(c, s) && Shaped(c, s') && ShardsInv(c, s')
    requires s' == s.(shards := s'.shards)
    requires forall k :: Weathered(CellAt(c, s, k), CellAt(c, s', k))
    ensures Inv(c, s')
  {
    forall k ensures KeyInv(CellAt(c, s', k), k, s') {
      FrameKey(CellAt(c, s, k), k, s, s');
      DropKeepsKey(CellAt(c, s, k), k, s');
      assert Weathered(CellAt(c, s, k), CellAt(c, s', k));
    }
  }

  /** The same job in another place. */
  predicate Moved(job: Job, job': Job) {
    job' == job.(place := job'.place, retriesLeft := job'.retriesLeft, attempt := job'.attempt)
  }

  lemma MovedOrdered(jobs: map<nat, Job>, id: nat, job: Job)
    requires Ordered(jobs) && id in jobs && Moved(jobs[id], job)
    ensures Ordered(jobs[id := job])
  {
  }

  lemma MovedExclusive(jobs: map<nat, Job>, id: nat, job: Job, workers: nat)
    requires Exclusive(jobs, workers) && id in jobs
    requires Held(job.place) ==>
      && job.place.worker < workers
      && forall b :: b in jobs && b != id && Held(jobs[b].place) ==> jobs[b].place.worker != job.place.worker
    ensures Exclusive(jobs[id := job], workers)
  {
  }

  lemma MovedLogged(jobs: map<nat, Job>, id: nat, job: Job, s: State, s': State)
    requires Logged(jobs, s) && id in jobs && Moved(jobs[id], job)
    requires s'.log == s.log && s.applied <= s'.applied && (job.place.Applied? ==> id in s'.applied)
    ensures Logged(jobs[id := job], s')
  {
  }

  lemma MoveOne(c: Config, s: State, s': State, id: nat, job: Job)
    requires Inv(c, s) && id in s.jobs && Moved(s.jobs[id], job)
    requires s' == s.(jobs := s.jobs[id := job], queue := s'.queue, source := s'.source, applied := s'.applied)
    requires s.applied <= s'.applied && (job.place.Applied? ==> id in s'.applied)
    requires Held(job.place) ==>
      && job.place.worker < c.workers
      && forall b :: b in s.jobs && b != id && Held(s.jobs[b].place) ==> s.jobs[b].place.worker != job.place.worker
    requires Lined(s'.jobs, s'.queue)
    ensures Inv(c, s')
  {
    MovedOrdered(s.jobs, id, job);
    MovedExclusive(s.jobs, id, job, c.workers);
    MovedLogged(s.jobs, id, job, s, s');
    MoveStep(c, s, s');
  }

  lemma MoveStep(c: Config, s: State, s': State)
    requires Inv(c, s) && JobsInv(c, s')
    requires s' == s.(jobs := s'.jobs, queue := s'.queue, source := s'.source, applied := s'.applied)
    requires s'.jobs.Keys == s.jobs.Keys && s.applied <= s'.applied
    requires forall id :: id in s.jobs ==>
               s'.jobs[id].key == s.jobs[id].key && s'.jobs[id].version == s.jobs[id].version
    ensures Inv(c, s')
  {
    forall k ensures KeyInv(CellAt(c, s', k), k, s') {
      FrameKey(CellAt(c, s, k), k, s, s');
    }
  }

  /** Every outstanding job of the key is older in version than the next write. */
  lemma NewestVersion(c: Config, s: State, k: Key, base: Cell)
    requires Inv(c, s) && Weathered(CellAt(c, s, k), base)
    ensures forall id :: id in s.jobs && s.jobs[id].key == k ==> s.jobs[id].version < Next(base)
  {
    assert KeyInv(CellAt(c, s, k), k, s);
    forall id | id in s.jobs && s.jobs[id].key == k ensures s.jobs[id].version < Next(base) {
      assert id in Out(s.jobs, k);
    }
  }

  lemma RecordJobs(c: Config, s: State, k: Key, op: Op, version: nat, sh': Shard)
    requires Shaped(c, s) && JobsInv(c, s)
    requires forall id :: id in s.jobs && s.jobs[id].key == k ==> s.jobs[id].version < version
    ensures JobsInv(c, Record(c, s, k, op, version, sh'))
  {
  }

  /** A key that is neither written nor settled keeps its invariant. */
  lemma OtherKey(c: Config, s: State, s': State, j: Key)
    requires Inv(c, s) && Shaped(c, s') && SameFor(j, s, s')
    requires Weathered(CellAt(c, s, j), CellAt(c, s', j))
    ensures KeyInv(CellAt(c, s', j), j, s')
  {
    FrameKey(CellAt(c, s, j), j, s, s');
    DropKeepsKey(CellAt(c, s, j), j, s');
  }

  lemma RecordOthers(c: Config, s: State, k: Key, op: Op, version: nat, sh': Shard, j: Key)
    requires Inv(c, s) && j != k
    requires Weathered(CellOf(ShardAt(c, s, k), j), CellOf(sh', j))
    ensures KeyInv(CellAt(c, Record(c, s, k, op, version, sh'), j), j, Record(c, s, k, op, version, sh'))
  {
    LastAppend(s.log, Write(k, op));
    OtherKey(c, s, Record(c, s, k, op, version, sh'), j);
  }

  lemma WriteStep(c: Config, s: State, k: Key, op: Op, version: nat, sh': Shard, base: Cell)
    requires Inv(c, s) && Kept(c, k, ShardAt(c, s, k), sh')
    requires Weathered(CellAt(c, s, k), base) && version == Next(base)
    requires match op
             case PutOp(v) =>
               CellOf(sh', k) == Written(base, v) || (CellOf(sh', k) == WrittenAndEvicted(base) && base.pending > 0)
             case DeleteOp => CellOf(sh', k) == Deleted(base)
    requires forall j :: j != k ==> Weathered(CellOf(ShardAt(c, s, k), j), CellOf(sh', j))
    ensures Inv(c, Record(c, s, k, op, version, sh'))
  {
    var s' := Record(c, s, k, op, version, sh');
    SetShardInv(c, s, k, sh', s');
    NewestVersion(c, s, k, base);
    RecordJobs(c, s, k, op, version, sh');
    forall j ensures KeyInv(CellAt(c, s', j), j, s') {
      if j == k {
        DropKeepsKey(CellAt(c, s, k), k, s);
        WriteKey(base, k, op, s, s', CellOf(sh', k), s'.jobs[|s.log|]);
      } else {
        RecordOthers(c, s, k, op, version, sh', j);
      }
    }
  }

  lemma SettleJobs(c: Config, s: State, s': State, id: nat)
    requires JobsInv(c, s) && id in s.jobs && s.jobs[id].place != Queued
    requires s' == s.(shards := s'.shards, jobs := s.jobs - {id}, lost := s'.lost, counts := s'.counts)
    ensures JobsInv(c, s')
  {
  }

  lemma SettleStep(c: Config, s: State, s': State, id: nat, sh': Shard)
    requires Inv(c, s) && id in s.jobs && s.jobs[id].place != Queued
    requires s' == s.(shards := s.shards[c.route(s.jobs[id].key) := sh'], jobs := s.jobs - {id},
                      lost := s'.lost, counts := s'.counts)
    requires s.lost <= s'.lost
    requires Kept(c, s.jobs[id].key, ShardAt(c, s, s.jobs[id].key), sh')
    requires var k := s.jobs[id].key;
             var cell := CellAt(c, s, k);
             || (CellOf(sh', k) == Resolved(cell) && (Last(s.log, k) != Some(id) || id in s'.lost))
             || (&& CellOf(sh', k) == Resolved(Cleaned(cell, s.jobs[id].version))
                 && s.log[id].op.PutOp? && id in s.applied)
             || (CellOf(sh', k) == Resolved(cell) && s.log[id].op.DeleteOp?)
    requires forall j :: j != s.jobs[id].key ==>
               CellOf(sh', j) == CellOf(ShardAt(c, s, s.jobs[id].key), j)
    ensures Inv(c, s')
  {
    var k := s.jobs[id].key;
    SetShardInv(c, s, k, sh', s');
    SettleJobs(c, s, s', id);
    forall j ensures KeyInv(CellAt(c, s', j), j, s') {
      if j == k {
        SettleKey(CellAt(c, s, k), k, s, s', id, CellOf(sh', k));
      } else {
        OtherKey(c, s, s', j);
      }
    }
  }
}
