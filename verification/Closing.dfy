/**
  `close(flush=True)` while workers run.  Each dirty entry and each tombstone gets a second
  job, of the version its write has, and close waits until no job is left; the workers go on
  meanwhile.  The lock region that collects several entries is several steps here.
 */
module Closing {
  import opened Prelude
  import opened Shards
  import opened Cells
  import opened Runs
  import opened WriteBack
  import opened WriteBackInvariant
  import opened WriteBackConvergence
  import opened Homes
  import opened WriteBackTheorems
  import opened WriteBackAccounts
  import opened WriteBackLedger
  import Shutdown

  /** `seconds` are the jobs that close created, with their keys; their numbers follow the log. */
  datatype Closing = Closing(s: State, seconds: map<nat, Key>)

  datatype Act = Second(key: Key) | Work(step: Step)

  function SecondJob(c: Config, sh: Shard, k: Key): Job
    requires Shutdown.Unflushed(sh, k)
  {
    if k in sh.tombs then Job(k, DeleteOp, sh.tombs[k], c.retries, 0, Created)
    else Job(k, PutOp(sh.entries[k].value), sh.entries[k].version, c.retries, 0, Created)
  }

  function AddSecond(c: Config, q: Closing, k: Key): Closing
    requires Shaped(c, q.s) && Shutdown.Unflushed(ShardAt(c, q.s, k), k)
  {
    var sh := ShardAt(c, q.s, k);
    var id := |q.s.log| + |q.seconds|;
    Closing(SetShard(c, q.s, k, Register(sh, k)).(jobs := q.s.jobs[id := SecondJob(c, sh, k)]), q.seconds[id := k])
  }

  /** No client writes any more; queued expiry jobs may still run. */
  predicate Goes(step: Step) {
    Internal(step) || step.ExpireStep?
  }

  ghost predicate Moves(c: Config, q: Closing, act: Act, q': Closing) {
    match act
    case Second(k) => Shaped(c, q.s) && Shutdown.Unflushed(ShardAt(c, q.s, k), k) && q' == AddSecond(c, q, k)
    case Work(step) => Goes(step) && Takes(c, q.s, step, q'.s) && q'.seconds == q.seconds
  }

  ghost function ClosingSteps(c: Config): (Closing, Act, Closing) -> bool {
    (q, act, q') => Moves(c, q, act, q')
  }

  /** A close that starts in state `s`. */
  ghost predicate ClosingRun(c: Config, s: State, run: Run<Closing, Act>) {
    IsRun(ClosingSteps(c), run) && run.states[0] == Closing(s, map[])
  }

  // ---------------------------------------------------------------- the invariant

  /** Job `id` carries the newest write of `k`. */
  predicate Newest(q: Closing, k: Key, id: nat) {
    Last(q.s.log, k) == Some(id) || (id in q.seconds && q.seconds[id] == k)
  }

  /** Some job of the newest write of `k` has reached the source. */
  ghost predicate Performed(q: Closing, k: Key) {
    exists id :: id in q.s.applied && Newest(q, k, id)
  }

  /** Every job of the newest write of `k` was rejected or gave up. */
  ghost predicate GivenUp(q: Closing, k: Key) {
    forall id :: Newest(q, k, id) ==> id in q.s.lost
  }

  /** As `KeyInv`, but several jobs may carry the newest write. */
  ghost predicate KeyClosing(cell: Cell, k: Key, q: Closing) {
    var last := Last(q.s.log, k);
    && cell.pending == |Out(q.s.jobs, k)|
    && (cell.mark.Some? <==> cell.live.Some? || cell.pending > 0)
    && (cell.mark.Some? ==> last.Some?)
    && (cell.live.Some? ==>
          && cell.live.value.version == cell.mark.value
          && q.s.log[last.value].op == PutOp(cell.live.value.value)
          && (cell.live.value.dirty || Performed(q, k)))
    && (cell.tomb.Some? <==> cell.pending > 0 && q.s.log[last.value].op.DeleteOp?)
    && (cell.tomb.Some? ==> cell.tomb == cell.mark && cell.live.None?)
    && (forall id :: id in Out(q.s.jobs, k) ==>
          && q.s.jobs[id].version <= cell.mark.value
          && (q.s.jobs[id].version == cell.mark.value <==> Newest(q, k, id))
          && (Newest(q, k, id) ==> q.s.jobs[id].op == q.s.log[last.value].op))
  }

  ghost predicate CellsClosing(c: Config, q: Closing)
    requires Shaped(c, q.s)
  {
    forall k :: KeyClosing(CellAt(c, q.s, k), k, q)
  }

  /** Every job has its number and its place. */
  ghost predicate Numbered(q: Closing) {
    && (forall id :: id in q.seconds ==>
          |q.s.log| <= id < |q.s.log| + |q.seconds| && Last(q.s.log, q.seconds[id]).Some?)
    && (forall id :: id in q.s.jobs ==>
          && (if id in q.seconds then q.seconds[id] == q.s.jobs[id].key
              else id < |q.s.log| && q.s.jobs[id].key == q.s.log[id].key)
          && id !in q.s.lost && (id in q.s.applied <==> q.s.jobs[id].place.Applied?))
    && (forall id :: id in q.s.applied ==> id !in q.s.lost && (id < |q.s.log| || id in q.seconds))
    && (forall id :: id in q.s.lost ==> id < |q.s.log| || id in q.seconds)
  }

  /** A job of a newest write is outstanding, applied or lost. */
  ghost predicate Accounted(q: Closing) {
    forall k, id :: Newest(q, k, id) ==> id in q.s.jobs || id in q.s.applied || id in q.s.lost
  }

  /** With one worker: once performed, the newest write stays in the source. */
  ghost predicate Fixed(q: Closing, k: Key) {
    Performed(q, k) ==>
      && Last(q.s.log, k).Some? && Reflects(q.s.source, q.s.log[Last(q.s.log, k).value])
      && forall id :: id in q.s.jobs && q.s.jobs[id].key == k && q.s.jobs[id].place.Passed? ==> Newest(q, k, id)
  }

  ghost predicate ClosingInv(c: Config, q: Closing) {
    && Homed(c, q.s)
    && CellsClosing(c, q)
    && Numbered(q)
    && Accounted(q)
    && Exclusive(q.s.jobs, c.workers)
    && (c.workers <= 1 ==> AllFixed(q))
  }

  ghost predicate AllFixed(q: Closing) {
    forall k :: Fixed(q, k)
  }

  // ---------------------------------------------------------------- how a close begins

  lemma BeginCell(c: Config, s: State, k: Key)
    requires Inv(c, s) && Ledger(s)
    ensures KeyClosing(CellAt(c, s, k), k, Closing(s, map[]))
  {
    var q := Closing(s, map[]);
    assert KeyInv(CellAt(c, s, k), k, s);
    if CellAt(c, s, k).live.Some? && !CellAt(c, s, k).live.value.dirty {
      assert Newest(q, k, Last(s.log, k).value);
    }
  }

  lemma BeginFixed(c: Config, s: State, k: Key)
    requires Inv(c, s) && Ledger(s) && Converging(s)
    ensures Fixed(Closing(s, map[]), k)
  {
    assert Settling(s, k) && Fated(s, k);
  }

  lemma Begins(c: Config, source: map<Key, Value>, r: Run<State, Step>)
    requires History(c, source, r)
    ensures ClosingInv(c, Closing(Final(r), map[]))
  {
    var s := Final(r);
    HistoryInv(c, source, r);
    HistoryLedger(c, source, r);
    AlwaysHomed(c, source, r);
    forall k ensures KeyClosing(CellAt(c, s, k), k, Closing(s, map[])) { BeginCell(c, s, k); }
    forall k, id | Newest(Closing(s, map[]), k, id) ensures id in s.jobs || id in s.applied || id in s.lost {
      assert Fated(s, k);
    }
    if c.workers <= 1 {
      HistoryConverges(c, source, r);
      forall k ensures Fixed(Closing(s, map[]), k) { BeginFixed(c, s, k); }
    }
  }

  // ---------------------------------------------------------------- one key at a time

  /** The jobs of `k` are the same but for their places, and what was performed stays performed. */
  ghost predicate SameJobs(q: Closing, q': Closing, k: Key) {
    && q'.s.log == q.s.log && q.s.applied <= q'.s.applied
    && (forall id :: Newest(q', k, id) <==> Newest(q, k, id))
    && (forall id :: id in q'.s.jobs && q'.s.jobs[id].key == k <==> id in q.s.jobs && q.s.jobs[id].key == k)
    && (forall id :: id in q.s.jobs && q.s.jobs[id].key == k ==>
          q'.s.jobs[id].version == q.s.jobs[id].version && q'.s.jobs[id].op == q.s.jobs[id].op)
  }

  lemma PerformedStays(q: Closing, q': Closing, k: Key)
    requires Performed(q, k) && q.s.applied <= q'.s.applied
    requires forall id :: Newest(q, k, id) ==> Newest(q', k, id)
    ensures Performed(q', k)
  {
    var id :| id in q.s.applied && Newest(q, k, id);
    assert id in q'.s.applied && Newest(q', k, id);
  }

  lemma KeySame(cell: Cell, k: Key, q: Closing, q': Closing)
    requires KeyClosing(cell, k, q) && SameJobs(q, q', k)
    ensures KeyClosing(cell, k, q')
  {
    assert Out(q'.s.jobs, k) == Out(q.s.jobs, k);
    if Performed(q, k) { PerformedStays(q, q', k); }
  }

  lemma KeyDropped(cell: Cell, k: Key, q: Closing)
    requires KeyClosing(cell, k, q)
    ensures KeyClosing(Dropped(cell), k, q)
  {
  }

  /** One more job of the newest write of `k`. */
  lemma KeySecond(cell: Cell, k: Key, q: Closing, q': Closing, id: nat, job: Job)
    requires KeyClosing(cell, k, q) && q'.s.log == q.s.log && q'.s.applied == q.s.applied
    requires id !in q.s.jobs && q'.s.jobs == q.s.jobs[id := job] && q'.seconds == q.seconds[id := k]
    requires id !in q.seconds && Last(q.s.log, k) != Some(id)
    requires cell.mark.Some? && job.key == k && job.version == cell.mark.value
    requires job.op == q.s.log[Last(q.s.log, k).value].op
    ensures KeyClosing(cell.(pending := cell.pending + 1), k, q')
  {
    OutAdded(q.s.jobs, id, job, k);
    if Performed(q, k) { PerformedStays(q, q', k); }
  }

  /** One job of `k` less. */
  lemma KeyEnd(cell: Cell, k: Key, q: Closing, q': Closing, id: nat, cell': Cell)
    requires KeyClosing(cell, k, q) && q'.s.log == q.s.log && q'.s.applied == q.s.applied && q'.seconds == q.seconds
    requires id in q.s.jobs && q.s.jobs[id].key == k && q'.s.jobs == q.s.jobs - {id}
    requires cell' == Resolved(cell)
             || (cell' == Resolved(Cleaned(cell, q.s.jobs[id].version)) && id in q.s.applied)
    ensures KeyClosing(cell', k, q')
  {
    OutRemoved(q.s.jobs, id, k);
    assert id in Out(q.s.jobs, k);
    if Performed(q, k) { PerformedStays(q, q', k); }
    if id in q.s.applied && Newest(q, k, id) {
      assert Performed(q', k) by { assert id in q'.s.applied && Newest(q', k, id); }
    }
  }

  /** Nothing new was performed for `k`, its source is the same, and only newest jobs came past their check. */
  lemma FrameFixed(q: Closing, q': Closing, k: Key)
    requires Fixed(q, k) && q'.s.log == q.s.log
    requires forall id :: id in q'.s.applied && Newest(q', k, id) ==> id in q.s.applied && Newest(q, k, id)
    requires forall id :: Newest(q, k, id) ==> Newest(q', k, id)
    requires Shutdown.SameAt(q.s.source, q'.s.source, k)
    requires forall id :: id in q'.s.jobs && q'.s.jobs[id].key == k && q'.s.jobs[id].place.Passed? ==>
               (id in q.s.jobs && q.s.jobs[id].key == k && q.s.jobs[id].place.Passed?) || Newest(q, k, id)
    ensures Fixed(q', k)
  {
    if Performed(q', k) {
      var id :| id in q'.s.applied && Newest(q', k, id);
      assert id in q.s.applied && Newest(q, k, id);
    }
  }

  /** In a close the stale check passes exactly the jobs of the newest write. */
  lemma StaleIffNotNewest(c: Config, q: Closing, id: nat)
    requires Shaped(c, q.s) && CellsClosing(c, q) && id in q.s.jobs
    ensures Stale(c, q.s, q.s.jobs[id]) <==> !Newest(q, q.s.jobs[id].key, id)
  {
    var k := q.s.jobs[id].key;
    assert KeyClosing(CellAt(c, q.s, k), k, q);
    assert id in Out(q.s.jobs, k);
  }

  // ---------------------------------------------------------------- every step keeps the invariant

  /** `job` is added under the next number; nothing is entered in the ledger. */
  ghost predicate Adds(q: Closing, q': Closing, k: Key, id: nat, job: Job) {
    && id == |q.s.log| + |q.seconds| && job.key == k && job.place == Created
    && q'.s == q.s.(shards := q'.s.shards, jobs := q.s.jobs[id := job])
    && q'.seconds == q.seconds[id := k]
  }

  lemma FreshNumber(q: Closing, id: nat)
    requires Numbered(q) && id == |q.s.log| + |q.seconds|
    ensures id !in q.s.jobs && id !in q.seconds && id !in q.s.applied && id !in q.s.lost
    ensures forall k :: Last(q.s.log, k) != Some(id)
  {
  }

  lemma SecondSame(q: Closing, q': Closing, k: Key, id: nat, job: Job, j: Key)
    requires Numbered(q) && Adds(q, q', k, id, job) && j != k
    ensures SameJobs(q, q', j)
  {
    FreshNumber(q, id);
  }

  /** The second job carries the newest write of its key. */
  lemma SecondIsNewest(c: Config, sh: Shard, k: Key, q: Closing)
    requires KeyClosing(CellOf(sh, k), k, q) && Shutdown.Unflushed(sh, k)
    ensures var job := SecondJob(c, sh, k);
            && CellOf(sh, k).mark.Some? && Last(q.s.log, k).Some?
            && job.key == k && job.place == Created && job.version == CellOf(sh, k).mark.value
            && job.op == q.s.log[Last(q.s.log, k).value].op
  {
  }

  lemma SecondCell(c: Config, q: Closing, k: Key, q': Closing, id: nat, job: Job, j: Key)
    requires Homed(c, q.s) && CellsClosing(c, q) && Numbered(q) && Shutdown.Unflushed(ShardAt(c, q.s, k), k)
    requires Adds(q, q', k, id, job) && job == SecondJob(c, ShardAt(c, q.s, k), k)
    requires q'.s.shards == q.s.shards[c.route(k) := Register(ShardAt(c, q.s, k), k)]
    ensures KeyClosing(CellAt(c, q'.s, j), j, q')
  {
    var sh := ShardAt(c, q.s, k);
    RegisterCells(sh, k);
    FreshNumber(q, id);
    assert KeyClosing(CellAt(c, q.s, j), j, q);
    if j == k {
      SecondIsNewest(c, sh, k, q);
      KeySecond(CellAt(c, q.s, k), k, q, q', id, job);
    } else {
      assert CellAt(c, q'.s, j) == CellAt(c, q.s, j);
      SecondSame(q, q', k, id, job, j);
      KeySame(CellAt(c, q.s, j), j, q, q');
    }
  }

  lemma SecondNumbered(q: Closing, k: Key, q': Closing, id: nat, job: Job)
    requires Numbered(q) && Adds(q, q', k, id, job) && Last(q.s.log, k).Some?
    ensures Numbered(q')
  {
    FreshNumber(q, id);
    MoreSeconds(q.seconds, id, k);
    forall i | i in q'.s.jobs
      ensures if i in q'.seconds then q'.seconds[i] == q'.s.jobs[i].key
              else i < |q'.s.log| && q'.s.jobs[i].key == q'.s.log[i].key
      ensures i !in q'.s.lost && (i in q'.s.applied <==> q'.s.jobs[i].place.Applied?)
    {
      assert i != id ==> i in q.s.jobs;
    }
  }

  lemma MoreSeconds(seconds: map<nat, Key>, id: nat, k: Key)
    requires id !in seconds
    ensures |seconds[id := k]| == |seconds| + 1
  {
    assert seconds[id := k].Keys == seconds.Keys + {id};
    assert |seconds[id := k]| == |seconds[id := k].Keys|;
  }

  lemma SecondAccounted(q: Closing, k: Key, q': Closing, id: nat, job: Job)
    requires Accounted(q) && Adds(q, q', k, id, job)
    ensures Accounted(q')
  {
    forall j, i | Newest(q', j, i) ensures i in q'.s.jobs || i in q'.s.applied || i in q'.s.lost {
      if i != id { assert Newest(q, j, i); }
    }
  }

  lemma SecondExclusive(q: Closing, k: Key, q': Closing, id: nat, job: Job, workers: nat)
    requires Exclusive(q.s.jobs, workers) && Adds(q, q', k, id, job)
    ensures Exclusive(q'.s.jobs, workers)
  {
  }

  lemma SecondBooks(c: Config, q: Closing, k: Key, q': Closing, id: nat, job: Job)
    requires Numbered(q) && Accounted(q) && Exclusive(q.s.jobs, c.workers) && Adds(q, q', k, id, job)
    requires Last(q.s.log, k).Some?
    ensures Numbered(q') && Accounted(q') && Exclusive(q'.s.jobs, c.workers)
  {
    SecondNumbered(q, k, q', id, job);
    SecondAccounted(q, k, q', id, job);
    SecondExclusive(q, k, q', id, job, c.workers);
  }

  lemma SecondFixed(q: Closing, k: Key, q': Closing, id: nat, job: Job, j: Key)
    requires Numbered(q) && Adds(q, q', k, id, job) && Fixed(q, j)
    ensures Fixed(q', j)
  {
    FreshNumber(q, id);
    FrameFixed(q, q', j);
  }

  lemma SecondInv(c: Config, q: Closing, k: Key, q': Closing)
    requires ClosingInv(c, q) && Moves(c, q, Second(k), q')
    ensures ClosingInv(c, q')
  {
    var sh := ShardAt(c, q.s, k);
    var id, job := |q.s.log| + |q.seconds|, SecondJob(c, sh, k);
    SecondAdds(c, q, k, q');
    AddsInv(c, q, k, q', id, job);
  }

  lemma AddsInv(c: Config, q: Closing, k: Key, q': Closing, id: nat, job: Job)
    requires ClosingInv(c, q) && Shutdown.Unflushed(ShardAt(c, q.s, k), k)
    requires Adds(q, q', k, id, job) && job == SecondJob(c, ShardAt(c, q.s, k), k)
    requires q'.s.shards == q.s.shards[c.route(k) := Register(ShardAt(c, q.s, k), k)]
    ensures ClosingInv(c, q')
  {
    assert KeyClosing(CellAt(c, q.s, k), k, q);
    SecondIsNewest(c, ShardAt(c, q.s, k), k, q);
    SecondHomed(c, q.s, k, q'.s);
    forall j ensures KeyClosing(CellAt(c, q'.s, j), j, q') { SecondCell(c, q, k, q', id, job, j); }
    SecondBooks(c, q, k, q', id, job);
    if c.workers <= 1 {
      forall j ensures Fixed(q', j) { SecondFixed(q, k, q', id, job, j); }
    }
  }

  lemma SecondAdds(c: Config, q: Closing, k: Key, q': Closing)
    requires Moves(c, q, Second(k), q')
    ensures Adds(q, q', k, |q.s.log| + |q.seconds|, SecondJob(c, ShardAt(c, q.s, k), k))
    ensures q'.s.shards == q.s.shards[c.route(k) := Register(ShardAt(c, q.s, k), k)]
  {
  }

  lemma SecondHomed(c: Config, s: State, k: Key, s': State)
    requires Homed(c, s) && s'.shards == s.shards[c.route(k) := Register(ShardAt(c, s, k), k)]
    ensures Homed(c, s')
  {
    var sh := ShardAt(c, s, k);
    assert Home(c, sh, c.route(k)) && Tidy(CellOf(sh, k));
    RegisterCells(sh, k);
    HomeKept(c, s, k, Register(sh, k), s');
  }

  /** A quiet step: the shards weather, nothing else changes. */
  lemma ExpireClosing(c: Config, q: Closing, i: nat, now: real, q': Closing)
    requires ClosingInv(c, q) && Moves(c, q, Work(ExpireStep(i, now)), q')
    ensures ClosingInv(c, q')
  {
    StepHomed(c, q.s, ExpireStep(i, now), q'.s);
    forall k ensures KeyClosing(CellAt(c, q'.s, k), k, q') {
      assert KeyClosing(CellAt(c, q.s, k), k, q);
      ExpireCell(c, q, i, now, q', k);
    }
    SameBooks(q, q');
    if c.workers <= 1 {
      forall k ensures Fixed(q', k) { SameFixed(q, q', k); }
    }
  }

  lemma ExpireCell(c: Config, q: Closing, i: nat, now: real, q': Closing, k: Key)
    requires Shaped(c, q.s) && i < c.shardCount && KeyClosing(CellAt(c, q.s, k), k, q) && q'.seconds == q.seconds
    requires q'.s == q.s.(shards := q.s.shards[i := ExpireAll(q.s.shards[i], now)])
    ensures KeyClosing(CellAt(c, q'.s, k), k, q')
  {
    RemoveAllCells(q.s.shards[i], ExpiredKeys(q.s.shards[i], now), Expire);
    assert Weathered(CellAt(c, q.s, k), CellAt(c, q'.s, k));
    KeyDropped(CellAt(c, q.s, k), k, q);
    KeySame(CellAt(c, q'.s, k), k, q, q');
  }

  lemma SameBooks(q: Closing, q': Closing)
    requires Numbered(q) && Accounted(q) && q'.seconds == q.seconds
    requires q'.s == q.s.(shards := q'.s.shards)
    ensures Numbered(q') && Accounted(q')
  {
    forall k, id | Newest(q', k, id) ensures id in q'.s.jobs || id in q'.s.applied || id in q'.s.lost {
      assert Newest(q, k, id);
    }
  }

  lemma SameFixed(q: Closing, q': Closing, k: Key)
    requires Fixed(q, k) && q'.seconds == q.seconds && q'.s == q.s.(shards := q'.s.shards)
    ensures Fixed(q', k)
  {
    FrameFixed(q, q', k);
  }

  /** Job `id` moves to another place; if that is the source, its operation takes effect. */
  ghost predicate MovesJob(c: Config, q: Closing, q': Closing, id: nat, job: Job) {
    && id in q.s.jobs && Moved(q.s.jobs[id], job) && q'.seconds == q.seconds
    && q'.s == q.s.(jobs := q.s.jobs[id := job], queue := q'.s.queue, source := q'.s.source, applied := q'.s.applied)
    && !q.s.jobs[id].place.Applied?
    && (job.place.Passed? ==> Newest(q, job.key, id))
    && (if job.place.Applied?
        then && q.s.jobs[id].place == Passed(job.place.worker)
             && q'.s.source == ApplyOp(q.s.source, job.key, job.op) && q'.s.applied == q.s.applied + {id}
        else q'.s.source == q.s.source && q'.s.applied == q.s.applied)
    && (Held(job.place) ==>
          && job.place.worker < c.workers
          && forall b :: b in q.s.jobs && b != id && Held(q.s.jobs[b].place)
                         ==> q.s.jobs[b].place.worker != job.place.worker)
  }

  lemma MoveCells(c: Config, q: Closing, q': Closing, id: nat, job: Job)
    requires Shaped(c, q.s) && CellsClosing(c, q) && MovesJob(c, q, q', id, job)
    ensures CellsClosing(c, q')
  {
    forall k ensures KeyClosing(CellAt(c, q'.s, k), k, q') {
      assert KeyClosing(CellAt(c, q.s, k), k, q);
      assert SameJobs(q, q', k);
      KeySame(CellAt(c, q.s, k), k, q, q');
    }
  }

  lemma MoveBooks(c: Config, q: Closing, q': Closing, id: nat, job: Job)
    requires Numbered(q) && Accounted(q) && Exclusive(q.s.jobs, c.workers) && MovesJob(c, q, q', id, job)
    ensures Numbered(q') && Accounted(q') && Exclusive(q'.s.jobs, c.workers)
  {
    MovedExclusive(q.s.jobs, id, job, c.workers);
    forall k, i | Newest(q', k, i) ensures i in q'.s.jobs || i in q'.s.applied || i in q'.s.lost {
      assert Newest(q, k, i);
    }
  }

  lemma PlainMoveFixed(c: Config, q: Closing, q': Closing, id: nat, job: Job, k: Key)
    requires MovesJob(c, q, q', id, job) && !job.place.Applied? && Fixed(q, k)
    ensures Fixed(q', k)
  {
    FrameFixed(q, q', k);
  }

  /** An applied job of another key. */
  lemma ApplyOther(c: Config, q: Closing, q': Closing, id: nat, job: Job, k: Key)
    requires MovesJob(c, q, q', id, job) && job.place.Applied? && job.key != k && !Newest(q, k, id) && Fixed(q, k)
    ensures Fixed(q', k)
  {
    FrameFixed(q, q', k);
  }

  /** If the newest write of the key was performed before or is now, this job carries it. */
  lemma ApplyIsNewest(c: Config, q: Closing, q': Closing, id: nat, job: Job)
    requires MovesJob(c, q, q', id, job) && job.place.Applied? && Fixed(q, job.key) && Performed(q', job.key)
    ensures Newest(q, job.key, id)
  {
    var i :| i in q'.s.applied && Newest(q', job.key, i);
    assert Newest(q, job.key, i);
    if i != id { assert Performed(q, job.key); }
  }

  lemma ApplyOwn(c: Config, q: Closing, q': Closing, id: nat, job: Job)
    requires Shaped(c, q.s) && CellsClosing(c, q) && Exclusive(q.s.jobs, c.workers) && c.workers <= 1
    requires MovesJob(c, q, q', id, job) && job.place.Applied? && Newest(q, job.key, id)
    ensures Fixed(q', job.key)
  {
    AppliedNewest(c, q, id);
    assert forall b :: b in q'.s.jobs ==> !q'.s.jobs[b].place.Passed?;
  }

  lemma MoveFixed(c: Config, q: Closing, q': Closing, id: nat, job: Job, k: Key)
    requires Numbered(q) && Exclusive(q.s.jobs, c.workers) && c.workers <= 1
    requires Shaped(c, q.s) && CellsClosing(c, q) && MovesJob(c, q, q', id, job) && Fixed(q, k)
    ensures Fixed(q', k)
  {
    if !job.place.Applied? {
      PlainMoveFixed(c, q, q', id, job, k);
    } else if job.key != k {
      if Newest(q, k, id) { NumberedKey(q, k, id); }
      ApplyOther(c, q, q', id, job, k);
    } else if Performed(q', k) {
      ApplyIsNewest(c, q, q', id, job);
      ApplyOwn(c, q, q', id, job);
    }
  }

  /** A job of the newest write of a key carries that write. */
  lemma AppliedNewest(c: Config, q: Closing, id: nat)
    requires Shaped(c, q.s) && CellsClosing(c, q) && id in q.s.jobs && Newest(q, q.s.jobs[id].key, id)
    ensures var k := q.s.jobs[id].key;
            && Last(q.s.log, k).Some? && q.s.jobs[id].op == q.s.log[Last(q.s.log, k).value].op
  {
    var k := q.s.jobs[id].key;
    assert KeyClosing(CellAt(c, q.s, k), k, q);
    assert id in Out(q.s.jobs, k);
  }

  lemma NumberedKey(q: Closing, k: Key, id: nat)
    requires Numbered(q) && id in q.s.jobs && Newest(q, k, id)
    ensures q.s.jobs[id].key == k
  {
  }

  lemma MoveInv(c: Config, q: Closing, q': Closing, id: nat, job: Job)
    requires ClosingInv(c, q) && MovesJob(c, q, q', id, job) && Homed(c, q'.s)
    ensures ClosingInv(c, q')
  {
    MoveCells(c, q, q', id, job);
    MoveBooks(c, q, q', id, job);
    if c.workers <= 1 {
      forall k ensures Fixed(q', k) {
        assert Fixed(q, k);
        MoveFixed(c, q, q', id, job, k);
      }
    }
  }

  // ---------------------------------------------------------------- jobs that end

  /** Job `id` ends: lost, or applied, or superseded. */
  ghost predicate EndsJob(q: Closing, q': Closing, id: nat) {
    && id in q.s.jobs && q'.seconds == q.seconds
    && q'.s == q.s.(shards := q'.s.shards, jobs := q.s.jobs - {id}, lost := q'.s.lost, counts := q'.s.counts)
    && (|| (q'.s.lost == q.s.lost + {id} && !q.s.jobs[id].place.Applied?)
        || (q'.s.lost == q.s.lost && (q.s.jobs[id].place.Applied? || !Newest(q, q.s.jobs[id].key, id))))
  }

  lemma EndBooks(c: Config, q: Closing, q': Closing, id: nat)
    requires Numbered(q) && Accounted(q) && Exclusive(q.s.jobs, c.workers) && EndsJob(q, q', id)
    ensures Numbered(q') && Accounted(q') && Exclusive(q'.s.jobs, c.workers)
  {
    forall k, i | Newest(q', k, i) ensures i in q'.s.jobs || i in q'.s.applied || i in q'.s.lost {
      assert Newest(q, k, i);
      if i == id { NumberedKey(q, k, id); }
    }
  }

  lemma EndFixed(q: Closing, q': Closing, id: nat, k: Key)
    requires EndsJob(q, q', id) && Fixed(q, k)
    ensures Fixed(q', k)
  {
    FrameFixed(q, q', k);
  }

  lemma EndSame(q: Closing, q': Closing, id: nat, j: Key)
    requires EndsJob(q, q', id) && q.s.jobs[id].key != j
    ensures SameJobs(q, q', j)
  {
  }

  /** The shard of the job is resolved, and cleaned first if the job was applied. */
  ghost predicate Releases(c: Config, q: Closing, q': Closing, id: nat, cleaned: Shard)
    requires Shaped(c, q.s) && id in q.s.jobs
  {
    var job := q.s.jobs[id];
    var sh := ShardAt(c, q.s, job.key);
    && (cleaned == sh || (cleaned == MarkClean(sh, job.key, job.version) && job.place.Applied?))
    && q'.s.shards == q.s.shards[c.route(job.key) := Resolve(cleaned, job.key)]
  }

  /** The cells of the shard after the release. */
  lemma ReleasedCells(sh: Shard, k: Key, version: nat, cleaned: Shard)
    requires cleaned == sh || cleaned == MarkClean(sh, k, version)
    ensures CellOf(Resolve(cleaned, k), k) ==
              Resolved(if cleaned == sh then CellOf(sh, k) else Cleaned(CellOf(sh, k), version))
    ensures forall j :: j != k ==> CellOf(Resolve(cleaned, k), j) == CellOf(sh, j)
  {
    MarkCleanCells(sh, k, version);
    ResolveCells(cleaned, k);
  }

  lemma EndOwn(c: Config, q: Closing, q': Closing, id: nat, cleaned: Shard)
    requires Shaped(c, q.s) && CellsClosing(c, q) && Numbered(q)
    requires EndsJob(q, q', id) && Releases(c, q, q', id, cleaned)
    ensures Shaped(c, q'.s) && KeyClosing(CellAt(c, q'.s, q.s.jobs[id].key), q.s.jobs[id].key, q')
  {
    var k := q.s.jobs[id].key;
    ReleasedCells(ShardAt(c, q.s, k), k, q.s.jobs[id].version, cleaned);
    assert KeyClosing(CellAt(c, q.s, k), k, q);
    KeyEnd(CellAt(c, q.s, k), k, q, q', id, CellAt(c, q'.s, k));
  }

  lemma EndOther(c: Config, q: Closing, q': Closing, id: nat, cleaned: Shard, j: Key)
    requires Shaped(c, q.s) && CellsClosing(c, q) && EndsJob(q, q', id) && Releases(c, q, q', id, cleaned)
    requires j != q.s.jobs[id].key
    ensures Shaped(c, q'.s) && KeyClosing(CellAt(c, q'.s, j), j, q')
  {
    var k := q.s.jobs[id].key;
    ReleasedCells(ShardAt(c, q.s, k), k, q.s.jobs[id].version, cleaned);
    assert CellAt(c, q'.s, j) == CellAt(c, q.s, j) && KeyClosing(CellAt(c, q.s, j), j, q);
    EndSame(q, q', id, j);
    KeySame(CellAt(c, q.s, j), j, q, q');
  }

  lemma EndInv(c: Config, q: Closing, q': Closing, id: nat, cleaned: Shard)
    requires ClosingInv(c, q) && Homed(c, q'.s) && EndsJob(q, q', id) && Releases(c, q, q', id, cleaned)
    ensures ClosingInv(c, q')
  {
    forall j ensures KeyClosing(CellAt(c, q'.s, j), j, q') {
      if j == q.s.jobs[id].key { EndOwn(c, q, q', id, cleaned); } else { EndOther(c, q, q', id, cleaned, j); }
    }
    EndBooks(c, q, q', id);
    if c.workers <= 1 {
      forall k ensures Fixed(q', k) {
        assert Fixed(q, k);
        EndFixed(q, q', id, k);
      }
    }
  }

  // ---------------------------------------------------------------- all steps

  lemma WorkMoves(c: Config, q: Closing, step: Step, q': Closing)
    requires ClosingInv(c, q) && Moves(c, q, Work(step), q')
    requires step.EnqueueStep? || step.RetryStep? || step.TakeStep? || step.PassStep? || step.ApplyStep?
    ensures ClosingInv(c, q')
  {
    var id := Subject(q.s, step);
    StepHomed(c, q.s, step, q'.s);
    if step.PassStep? { StaleIffNotNewest(c, q, id); }
    assert MovesJob(c, q, q', id, q'.s.jobs[id]);
    MoveInv(c, q, q', id, q'.s.jobs[id]);
  }

  lemma WorkLoses(c: Config, q: Closing, step: Step, q': Closing)
    requires ClosingInv(c, q) && Moves(c, q, Work(step), q')
    requires step.RejectStep? || step.RetryDroppedStep? || step.GiveUpStep?
    ensures ClosingInv(c, q')
  {
    StepHomed(c, q.s, step, q'.s);
    EndInv(c, q, q', step.id, ShardAt(c, q.s, q.s.jobs[step.id].key));
  }

  lemma WorkSkips(c: Config, q: Closing, id: nat, q': Closing)
    requires ClosingInv(c, q) && Moves(c, q, Work(SkipStep(id)), q')
    ensures ClosingInv(c, q')
  {
    StepHomed(c, q.s, SkipStep(id), q'.s);
    StaleIffNotNewest(c, q, id);
    EndInv(c, q, q', id, ShardAt(c, q.s, q.s.jobs[id].key));
  }

  lemma WorkFinishes(c: Config, q: Closing, id: nat, q': Closing)
    requires ClosingInv(c, q) && Takes(c, q.s, FinishStep(id), q'.s) && q'.seconds == q.seconds
    ensures ClosingInv(c, q')
  {
    StepHomed(c, q.s, FinishStep(id), q'.s);
    FinishShape(c, q.s, id, q'.s);
    EndInv(c, q, q', id, CleanedBy(ShardAt(c, q.s, q.s.jobs[id].key), q.s.jobs[id]));
  }

  lemma FinishShape(c: Config, s: State, id: nat, s': State)
    requires Takes(c, s, FinishStep(id), s')
    ensures var job := s.jobs[id];
            s' == s.(shards := s.shards[c.route(job.key) := Resolve(CleanedBy(ShardAt(c, s, job.key), job), job.key)],
                     jobs := s.jobs - {id}, counts := s'.counts)
  {
  }

  lemma ClosingStep(c: Config, q: Closing, act: Act, q': Closing)
    requires ClosingInv(c, q) && Moves(c, q, act, q')
    ensures ClosingInv(c, q')
  {
    match act
    case Second(k) => SecondInv(c, q, k, q');
    case Work(step) =>
      if step.ExpireStep? {
        ExpireClosing(c, q, step.shard, step.now, q');
      } else if step.EnqueueStep? || step.RetryStep? || step.TakeStep? || step.PassStep? || step.ApplyStep? {
        WorkMoves(c, q, step, q');
      } else if step.SkipStep? {
        WorkSkips(c, q, step.id, q');
      } else if step.FinishStep? {
        WorkFinishes(c, q, step.id, q');
      } else {
        WorkLoses(c, q, step, q');
      }
  }

  ghost function ClosingSafe(c: Config): Closing -> bool {
    q => ClosingInv(c, q)
  }

  lemma ClosingKeepsInv(c: Config, source: map<Key, Value>, r: Run<State, Step>, run: Run<Closing, Act>)
    requires History(c, source, r) && ClosingRun(c, Final(r), run)
    ensures ClosingInv(c, Final(run))
  {
    Begins(c, source, r);
    forall q, act, q' | ClosingSafe(c)(q) && ClosingSteps(c)(q, act, q') ensures ClosingSafe(c)(q') {
      ClosingStep(c, q, act, q');
    }
    Invariance(ClosingSteps(c), ClosingSafe(c), run, |run.steps|);
  }
}
