/** `close(flush=True)` when no worker runs: the dirty entries and tombstones are flushed synchronously. */
module Shutdown {
  import opened Prelude
  import opened Shards
  import opened CacheShards
  import opened WriteBack

  // ---------------------------------------------------------------- the source

  datatype Source = Source(data: map<Key, Value>, failures: nat)

  /** The source of truth with its injected failures. */
  class SlowDictBackend {
    var data: map<Key, Value>
    var failures: nat

    function View(): Source
      reads this
    {
      Source(data, failures)
    }

    constructor ()
      ensures View() == Source(map[], 0)
    {
      data, failures := map[], 0;
    }

    method FailNext(count: nat)
      modifies this
      ensures View() == old(View()).(failures := old(failures) + count)
    {
      failures := failures + count;
    }

    /** `put_value` or `delete_value`; not `ok` when it raised. */
    method Apply(k: Key, op: Op) returns (ok: bool)
      modifies this
      ensures ok <==> old(failures) == 0
      ensures View() == if ok then Source(ApplyOp(old(data), k, op), 0) else old(View()).(failures := old(failures) - 1)
    {
      if failures > 0 {
        failures := failures - 1;
        return false;
      }
      match op {
        case PutOp(v) => data := data[k := v];
        case DeleteOp => data := data - {k};
      }
      return true;
    }
  }

  // ---------------------------------------------------------------- one job

  datatype FlushJob = FlushJob(key: Key, op: Op, version: nat)

  /** The source after up to `attempts` tries of one operation. */
  function Tried(src: Source, k: Key, op: Op, attempts: nat): Source {
    if src.failures >= attempts then src.(failures := src.failures - attempts)
    else Source(ApplyOp(src.data, k, op), 0)
  }

  predicate Stale(sh: Shard, job: FlushJob) {
    IsStale(sh.marks, sh.tombs, job.key, job.op, job.version)
  }

  /** The shard and the source after the synchronous flush of one job. */
  function FlushedShard(sh: Shard, src: Source, job: FlushJob, retries: nat): Shard {
    var works := !Stale(sh, job) && src.failures <= retries;
    ClearPending(if works && job.op.PutOp? then MarkClean(sh, job.key, job.version) else sh, job.key)
  }

  function FlushedSource(sh: Shard, src: Source, job: FlushJob, retries: nat): Source {
    if Stale(sh, job) then src else Tried(src, job.key, job.op, retries + 1)
  }

  predicate Fails(sh: Shard, src: Source, job: FlushJob, retries: nat) {
    !Stale(sh, job) && src.failures > retries
  }

  method FlushJobSync(shard: CacheShard, source: SlowDictBackend, job: FlushJob, retries: nat) returns (failed: bool)
    modifies shard, source
    ensures shard.View() == FlushedShard(old(shard.View()), old(source.View()), job, retries)
    ensures source.View() == FlushedSource(old(shard.View()), old(source.View()), job, retries)
    ensures failed <==> Fails(old(shard.View()), old(source.View()), job, retries)
  {
    if IsStale(shard.marks, shard.tombs, job.key, job.op, job.version) {
      shard.ClearPendingFlushes(job.key);
      return false;
    }
    var attempts := retries + 1;
    var success := false;
    var attempt := 0;
    while attempt < attempts && !success
      invariant 0 <= attempt <= attempts
      invariant if success
                then && old(source.failures) <= retries
                     && source.View() == Tried(old(source.View()), job.key, job.op, attempts)
                else && attempt <= old(source.failures)
                     && source.View() == old(source.View()).(failures := old(source.failures) - attempt)
      invariant shard.View() == if success && job.op.PutOp? then MarkClean(old(shard.View()), job.key, job.version)
                                else old(shard.View())
      decreases attempts - attempt, !success
    {
      var ok := source.Apply(job.key, job.op);
      if ok {
        if job.op.PutOp? {
          shard.MarkClean(job.key, job.version);
        }
        success := true;
      } else {
        attempt := attempt + 1;
      }
    }
    shard.ClearPendingFlushes(job.key);
    failed := !success;
  }

  // ---------------------------------------------------------------- all jobs of a shard

  function FlushShardWith(sh: Shard, src: Source, jobs: seq<FlushJob>, retries: nat): (Shard, Source, bool)
    decreases |jobs|
  {
    if jobs == [] then (sh, src, false)
    else
      var (sh', src', failed) :=
        FlushShardWith(FlushedShard(sh, src, jobs[0], retries), FlushedSource(sh, src, jobs[0], retries),
                       jobs[1..], retries);
      (sh', src', Fails(sh, src, jobs[0], retries) || failed)
  }

  /** The metadata of a reachable shard, as far as the flush relies on it. */
  ghost predicate Consistent(sh: Shard) {
    && Tracked(sh)
    && (forall k :: k in sh.entries ==> k in sh.marks && sh.marks[k] == sh.entries[k].version && k !in sh.tombs)
    && (forall k :: k in sh.tombs ==> k in sh.marks && sh.marks[k] == sh.tombs[k] && Get(sh.pending, k) > 0)
  }

  /** The job is what its key needs: its dirty entry put, or its tombstone deleted. */
  predicate Ready(sh: Shard, job: FlushJob) {
    && job.key in sh.marks && sh.marks[job.key] == job.version
    && match job.op
       case PutOp(v) => job.key in sh.entries && sh.entries[job.key].value == v
                        && sh.entries[job.key].version == job.version && job.key !in sh.tombs
       case DeleteOp => job.key !in sh.entries && job.key in sh.tombs && sh.tombs[job.key] == job.version
  }

  /** The job's effect: its entry is clean with the value in the source, or the key is gone from it. */
  predicate Settled(sh: Shard, data: map<Key, Value>, job: FlushJob) {
    match job.op
    case PutOp(v) => job.key in sh.entries && !sh.entries[job.key].dirty && job.key in data && data[job.key] == v
    case DeleteOp => job.key !in data
  }

  predicate Distinct(jobs: seq<FlushJob>) {
    forall i, j :: 0 <= i < j < |jobs| ==> jobs[i].key != jobs[j].key
  }

  /** `jobs` are the jobs of all dirty entries and all tombstones of `sh`, one for each. */
  ghost predicate Covers(sh: Shard, jobs: seq<FlushJob>) {
    && Distinct(jobs)
    && (forall i :: 0 <= i < |jobs| ==> Ready(sh, jobs[i]) && (jobs[i].op.PutOp? ==> sh.entries[jobs[i].key].dirty))
    && (forall k :: k in sh.entries && sh.entries[k].dirty ==> Has(jobs, k))
    && (forall k :: k in sh.tombs ==> Has(jobs, k))
  }

  lemma ReadyIsFresh(sh: Shard, job: FlushJob)
    requires Ready(sh, job)
    ensures !Stale(sh, job)
  {
  }

  /** The two shards agree on `k`. */
  ghost predicate Aside(sh: Shard, sh': Shard, k: Key) {
    && Lookup(sh', k) == Lookup(sh, k)
    && (k in sh'.marks <==> k in sh.marks) && (k in sh.marks ==> sh'.marks[k] == sh.marks[k])
    && (k in sh'.tombs <==> k in sh.tombs) && (k in sh.tombs ==> sh'.tombs[k] == sh.tombs[k])
  }

  ghost predicate SameAt(data: map<Key, Value>, data': map<Key, Value>, k: Key) {
    (k in data' <==> k in data) && (k in data ==> data'[k] == data[k])
  }

  /** The entries are the same up to their dirty marks. */
  ghost predicate OnlyCleans(sh: Shard, sh': Shard) {
    && sh'.entries.Keys == sh.entries.Keys
    && forall k :: k in sh.entries ==>
         sh'.entries[k] == sh.entries[k] || sh'.entries[k] == sh.entries[k].(dirty := false)
  }

  /** Flushing one job settles it and leaves every other key alone. */
  lemma FlushOne(sh: Shard, src: Source, job: FlushJob, retries: nat)
    requires Ready(sh, job)
    ensures var sh' := FlushedShard(sh, src, job, retries);
            var src' := FlushedSource(sh, src, job, retries);
            && (Fails(sh, src, job, retries) <==> src.failures > retries)
            && (src.failures <= retries ==> Settled(sh', src'.data, job) && src'.failures == 0)
            && OnlyCleans(sh, sh')
            && (forall k :: k != job.key ==> Aside(sh, sh', k) && SameAt(src.data, src'.data, k))
  {
    ReadyIsFresh(sh, job);
  }

  lemma AsideReady(sh: Shard, sh': Shard, job: FlushJob)
    requires Ready(sh, job) && Aside(sh, sh', job.key)
    ensures Ready(sh', job)
  {
  }

  ghost predicate AllReady(sh: Shard, jobs: seq<FlushJob>) {
    Distinct(jobs) && forall i :: 0 <= i < |jobs| ==> Ready(sh, jobs[i])
  }

  lemma RestReady(sh: Shard, src: Source, jobs: seq<FlushJob>, retries: nat)
    requires AllReady(sh, jobs) && jobs != []
    ensures AllReady(FlushedShard(sh, src, jobs[0], retries), jobs[1..])
    ensures forall i :: 0 <= i < |jobs[1..]| ==> jobs[1..][i].key != jobs[0].key
  {
    FlushOne(sh, src, jobs[0], retries);
    var rest := jobs[1..];
    forall i | 0 <= i < |rest|
      ensures Ready(FlushedShard(sh, src, jobs[0], retries), rest[i]) && rest[i].key != jobs[0].key
    {
      assert rest[i] == jobs[i + 1];
      AsideReady(sh, FlushedShard(sh, src, jobs[0], retries), rest[i]);
    }
  }

  /** The flush of a shard touches no key without a job. */
  lemma {:induction false} FlushSpares(sh: Shard, src: Source, jobs: seq<FlushJob>, retries: nat, k: Key)
    requires AllReady(sh, jobs) && forall i :: 0 <= i < |jobs| ==> jobs[i].key != k
    ensures var (sh', src', _) := FlushShardWith(sh, src, jobs, retries);
            Aside(sh, sh', k) && SameAt(src.data, src'.data, k)
    decreases |jobs|
  {
    if jobs != [] {
      FlushOne(sh, src, jobs[0], retries);
      RestReady(sh, src, jobs, retries);
      FlushSpares(FlushedShard(sh, src, jobs[0], retries), FlushedSource(sh, src, jobs[0], retries),
                  jobs[1..], retries, k);
    }
  }

  lemma {:induction false} FlushOnlyCleans(sh: Shard, src: Source, jobs: seq<FlushJob>, retries: nat)
    requires AllReady(sh, jobs)
    ensures OnlyCleans(sh, FlushShardWith(sh, src, jobs, retries).0)
    decreases |jobs|
  {
    if jobs != [] {
      FlushOne(sh, src, jobs[0], retries);
      RestReady(sh, src, jobs, retries);
      FlushOnlyCleans(FlushedShard(sh, src, jobs[0], retries), FlushedSource(sh, src, jobs[0], retries),
                      jobs[1..], retries);
    }
  }

  lemma SettledStays(sh: Shard, sh': Shard, data: map<Key, Value>, data': map<Key, Value>, job: FlushJob)
    requires Settled(sh, data, job) && Aside(sh, sh', job.key) && SameAt(data, data', job.key)
    ensures Settled(sh', data', job)
  {
    assert job.key in sh.entries ==> Lookup(sh', job.key) == Some(sh.entries[job.key]);
  }

  /**
    The synchronous flush of a shard.  It reports failure exactly when there is a job and the
    source fails more often than the retries of one job allow; otherwise everything is settled.
   */
  lemma {:induction false} FlushSettles(sh: Shard, src: Source, jobs: seq<FlushJob>, retries: nat)
    requires AllReady(sh, jobs)
    ensures var (sh', src', failed) := FlushShardWith(sh, src, jobs, retries);
            && (failed <==> jobs != [] && src.failures > retries)
            && (!failed ==>
                  && src'.failures <= src.failures
                  && forall i :: 0 <= i < |jobs| ==> Settled(sh', src'.data, jobs[i]))
    decreases |jobs|
  {
    if jobs != [] {
      var job, rest := jobs[0], jobs[1..];
      var sh1, src1 := FlushedShard(sh, src, job, retries), FlushedSource(sh, src, job, retries);
      FlushOne(sh, src, job, retries);
      RestReady(sh, src, jobs, retries);
      FlushSettles(sh1, src1, rest, retries);
      FlushSpares(sh1, src1, rest, retries, job.key);
      var (sh', src', failed) := FlushShardWith(sh1, src1, rest, retries);
      if src.failures <= retries {
        SettledStays(sh1, sh', src1.data, src'.data, job);
        forall i | 0 <= i < |jobs| ensures Settled(sh', src'.data, jobs[i]) {
          if i > 0 { assert jobs[i] == rest[i - 1]; }
        }
      }
    }
  }

  // ---------------------------------------------------------------- one shard

  /** `k` has a dirty entry or a tombstone. */
  predicate Unflushed(sh: Shard, k: Key) {
    (k in sh.entries && sh.entries[k].dirty) || k in sh.tombs
  }

  /** Everything unflushed in `sh` is now clean, its value in the source or its key gone from it. */
  ghost predicate Persisted(sh: Shard, sh': Shard, data: map<Key, Value>) {
    && (forall k :: k in sh.entries && sh.entries[k].dirty ==>
          && k in sh'.entries && sh'.entries[k] == sh.entries[k].(dirty := false)
          && k in data && data[k] == sh.entries[k].value)
    && (forall k :: k in sh.tombs ==> k !in data)
  }

  /** What the synchronous flush of one shard achieves, without naming its jobs. */
  ghost predicate ShardFlushed(sh: Shard, src: Source, sh': Shard, src': Source, failed: bool, retries: nat) {
    && (failed <==> src.failures > retries && exists k :: Unflushed(sh, k))
    && OnlyCleans(sh, sh')
    && (forall k :: !Unflushed(sh, k) ==> Aside(sh, sh', k) && SameAt(src.data, src'.data, k))
    && (!failed ==> Persisted(sh, sh', src'.data) && (src'.failures <= retries <==> src.failures <= retries))
  }

  lemma CoveredKey(sh: Shard, jobs: seq<FlushJob>, i: nat)
    requires Covers(sh, jobs) && i < |jobs|
    ensures Unflushed(sh, jobs[i].key)
    ensures jobs[i].op.PutOp? <==> jobs[i].key in sh.entries
    ensures jobs[i].op.PutOp? ==> jobs[i].op.value == sh.entries[jobs[i].key].value
  {
    assert Ready(sh, jobs[i]);
  }

  lemma CoveredPersists(sh: Shard, sh': Shard, data: map<Key, Value>, jobs: seq<FlushJob>)
    requires Consistent(sh) && Covers(sh, jobs) && OnlyCleans(sh, sh')
    requires forall i :: 0 <= i < |jobs| ==> Settled(sh', data, jobs[i])
    ensures Persisted(sh, sh', data)
  {
    forall k | Unflushed(sh, k)
      ensures if k in sh.tombs then k !in data
              else k in sh'.entries && sh'.entries[k] == sh.entries[k].(dirty := false)
                   && k in data && data[k] == sh.entries[k].value
    {
      var i :| 0 <= i < |jobs| && jobs[i].key == k;
      CoveredKey(sh, jobs, i);
      assert Settled(sh', data, jobs[i]);
    }
  }

  /** The flush of all covered jobs, whatever their order. */
  lemma CoveredFlush(sh: Shard, src: Source, jobs: seq<FlushJob>, retries: nat)
    requires Consistent(sh) && Covers(sh, jobs)
    ensures var (sh', src', failed) := FlushShardWith(sh, src, jobs, retries);
            ShardFlushed(sh, src, sh', src', failed, retries)
  {
    var (sh', src', failed) := FlushShardWith(sh, src, jobs, retries);
    FlushSettles(sh, src, jobs, retries);
    FlushOnlyCleans(sh, src, jobs, retries);
    forall k | !Unflushed(sh, k) ensures Aside(sh, sh', k) && SameAt(src.data, src'.data, k) {
      forall i | 0 <= i < |jobs| ensures jobs[i].key != k { CoveredKey(sh, jobs, i); }
      FlushSpares(sh, src, jobs, retries, k);
    }
    if jobs != [] {
      CoveredKey(sh, jobs, 0);
    }
    if !failed {
      CoveredPersists(sh, sh', src'.data, jobs);
    }
  }

  /** `jobs` has a job of `k`. */
  ghost predicate Has(jobs: seq<FlushJob>, k: Key) {
    exists i :: 0 <= i < |jobs| && jobs[i].key == k
  }

  lemma AppendHas(sh: Shard, jobs: seq<FlushJob>, job: FlushJob)
    requires AllReady(sh, jobs) && Ready(sh, job)
    requires forall i :: 0 <= i < |jobs| ==> jobs[i].key != job.key
    ensures Has(Append(sh, jobs, job), job.key)
    ensures forall k :: Has(jobs, k) ==> Has(Append(sh, jobs, job), k)
  {
    var r := Append(sh, jobs, job);
    assert r[|jobs|].key == job.key;
    forall k | Has(jobs, k) ensures Has(r, k) {
      var i :| 0 <= i < |jobs| && jobs[i].key == k;
      assert r[i].key == k;
    }
  }

  /** The put jobs of the dirty entries, in backend order. */
  method CollectPuts(shard: CacheShard) returns (jobs: seq<FlushJob>)
    requires Consistent(shard.View())
    ensures AllReady(shard.View(), jobs)
    ensures forall j :: 0 <= j < |jobs| ==>
              jobs[j].op.PutOp? && jobs[j].key in shard.entries && shard.entries[jobs[j].key].dirty
    ensures forall k :: k in shard.entries && shard.entries[k].dirty ==> Has(jobs, k)
  {
    ghost var view := shard.View();
    jobs := [];
    var i := 0;
    while i < |shard.order|
      invariant 0 <= i <= |shard.order|
      invariant AllReady(view, jobs)
      invariant forall j :: 0 <= j < |jobs| ==>
                  && jobs[j].op.PutOp? && jobs[j].key in shard.entries && shard.entries[jobs[j].key].dirty
                  && jobs[j].key in shard.order[..i]
      invariant forall k :: k in shard.order[..i] && shard.entries[k].dirty ==> Has(jobs, k)
    {
      var k := shard.order[i];
      forall j | 0 <= j < i ensures shard.order[j] != k { NoDupIndices(shard.order, j, i); }
      assert shard.order[..i + 1] == shard.order[..i] + [k];
      if shard.entries[k].dirty {
        var job := FlushJob(k, PutOp(shard.entries[k].value), shard.entries[k].version);
        AppendHas(view, jobs, job);
        jobs := Append(view, jobs, job);
      }
      i := i + 1;
    }
    assert shard.order[..i] == shard.order;
  }

  /** The put jobs of the dirty entries in backend order, then the delete jobs of the tombstones. */
  method CollectJobs(shard: CacheShard) returns (jobs: seq<FlushJob>)
    requires Consistent(shard.View())
    ensures Covers(shard.View(), jobs)
  {
    ghost var view := shard.View();
    jobs := CollectPuts(shard);
    var left := shard.tombs.Keys;
    while left != {}
      invariant left <= shard.tombs.Keys
      invariant AllReady(view, jobs)
      invariant forall j :: 0 <= j < |jobs| ==>
                  (jobs[j].op.PutOp? ==> shard.entries[jobs[j].key].dirty) && jobs[j].key !in left
      invariant forall k :: k in view.entries && view.entries[k].dirty ==> Has(jobs, k)
      invariant forall k :: k in view.tombs && k !in left ==> Has(jobs, k)
      decreases |left|
    {
      var k :| k in left;
      var job := FlushJob(k, DeleteOp, shard.tombs[k]);
      AppendHas(view, jobs, job);
      jobs := Append(view, jobs, job);
      left := left - {k};
    }
  }

  /** One more job at the end of a list of ready jobs. */
  function Append(ghost sh: Shard, jobs: seq<FlushJob>, job: FlushJob): (r: seq<FlushJob>)
    requires AllReady(sh, jobs) && Ready(sh, job)
    requires forall i :: 0 <= i < |jobs| ==> jobs[i].key != job.key
    ensures AllReady(sh, r) && |r| == |jobs| + 1 && r[|jobs|] == job
    ensures forall i :: 0 <= i < |jobs| ==> r[i] == jobs[i]
  {
    jobs + [job]
  }

  method FlushShard(shard: CacheShard, source: SlowDictBackend, retries: nat) returns (failed: bool)
    requires Consistent(shard.View())
    modifies shard, source
    ensures ShardFlushed(old(shard.View()), old(source.View()), shard.View(), source.View(), failed, retries)
  {
    var jobs := CollectJobs(shard);
    CoveredFlush(shard.View(), source.View(), jobs, retries);
    failed := false;
    var i := 0;
    while i < |jobs|
      invariant 0 <= i <= |jobs|
      invariant var (sh, src, rest) := FlushShardWith(shard.View(), source.View(), jobs[i..], retries);
                (sh, src, failed || rest) == FlushShardWith(old(shard.View()), old(source.View()), jobs, retries)
    {
      assert jobs[i..][0] == jobs[i] && jobs[i..][1..] == jobs[i + 1..];
      var f := FlushJobSync(shard, source, jobs[i], retries);
      failed := failed || f;
      i := i + 1;
    }
  }

  // ---------------------------------------------------------------- the queue at shutdown

  function JobKeys(jobs: seq<FlushJob>): set<Key> {
    set i | 0 <= i < |jobs| :: jobs[i].key
  }

  /** Only the pending counts moved: up by one for the keys of `extra`. */
  ghost predicate Bumped(sh: Shard, sh': Shard, extra: set<Key>) {
    && sh' == sh.(pending := sh'.pending)
    && forall k :: Get(sh'.pending, k) == Get(sh.pending, k) + if k in extra then 1 else 0
  }

  lemma SplitJobs(jobs: seq<FlushJob>, i: nat)
    requires Distinct(jobs) && i < |jobs|
    ensures JobKeys(jobs[..i + 1]) == JobKeys(jobs[..i]) + {jobs[i].key} && jobs[i].key !in JobKeys(jobs[..i])
    ensures JobKeys(jobs[i..]) == JobKeys(jobs[i + 1..]) + {jobs[i].key} && jobs[i].key !in JobKeys(jobs[i + 1..])
  {
    assert jobs[..i + 1] == jobs[..i] + [jobs[i]];
    var rest := jobs[i + 1..];
    assert jobs[i..] == [jobs[i]] + rest;
    assert forall j :: 0 <= j < |rest| ==> rest[j] == jobs[i + 1 + j];
  }

  lemma RegisterBumps(sh: Shard, sh': Shard, extra: set<Key>, k: Key)
    requires Bumped(sh, sh', extra) && k !in extra
    ensures Bumped(sh, Register(sh', k), extra + {k})
  {
  }

  lemma ResolveUnbumps(sh: Shard, sh': Shard, extra: set<Key>, k: Key)
    requires Consistent(sh) && Unflushed(sh, k) && Bumped(sh, sh', extra) && k in extra
    ensures Bumped(sh, Resolve(sh', k), extra - {k})
  {
  }

  /** The keys of the first `n` jobs and of those from `i` on. */
  function Around(jobs: seq<FlushJob>, n: nat, i: nat): set<Key>
    requires n <= i <= |jobs|
  {
    JobKeys(jobs[..n]) + JobKeys(jobs[i..])
  }

  lemma AroundGap(jobs: seq<FlushJob>, n: nat)
    requires n <= |jobs|
    ensures Around(jobs, n, n) == JobKeys(jobs) && Around(jobs, n, |jobs|) == JobKeys(jobs[..n])
  {
    assert jobs == jobs[..n] + jobs[n..];
    assert jobs[|jobs|..] == [];
  }

  lemma ReleaseOne(sh: Shard, sh': Shard, jobs: seq<FlushJob>, n: nat, i: nat)
    requires Consistent(sh) && Covers(sh, jobs) && n <= i < |jobs|
    requires Bumped(sh, sh', Around(jobs, n, i))
    ensures Bumped(sh, Resolve(sh', jobs[i].key), Around(jobs, n, i + 1))
  {
    SplitJobs(jobs, i);
    CoveredKey(sh, jobs, i);
    ResolveUnbumps(sh, sh', Around(jobs, n, i), jobs[i].key);
    assert jobs[i].key !in JobKeys(jobs[..n]);
    assert Around(jobs, n, i) - {jobs[i].key} == Around(jobs, n, i + 1);
  }

  lemma BumpedIsConsistent(sh: Shard, sh': Shard, extra: set<Key>)
    requires Consistent(sh) && Bumped(sh, sh', extra)
    ensures Consistent(sh')
  {
  }

  method RegisterJobs(shard: CacheShard, jobs: seq<FlushJob>)
    requires Distinct(jobs)
    modifies shard
    ensures Bumped(old(shard.View()), shard.View(), JobKeys(jobs))
  {
    var i := 0;
    while i < |jobs|
      invariant 0 <= i <= |jobs|
      invariant Bumped(old(shard.View()), shard.View(), JobKeys(jobs[..i]))
    {
      SplitJobs(jobs, i);
      RegisterBumps(old(shard.View()), shard.View(), JobKeys(jobs[..i]), jobs[i].key);
      shard.RegisterPending(jobs[i].key);
      i := i + 1;
    }
    assert jobs[..i] == jobs;
  }

  /** Releases the pending counts of the jobs from `n` on; `sh` is the shard before they were registered. */
  method ReleaseJobs(shard: CacheShard, jobs: seq<FlushJob>, n: nat, ghost sh: Shard)
    requires Consistent(sh) && Covers(sh, jobs) && n <= |jobs|
    requires Bumped(sh, shard.View(), JobKeys(jobs))
    modifies shard
    ensures Bumped(sh, shard.View(), JobKeys(jobs[..n]))
  {
    var i := n;
    AroundGap(jobs, n);
    while i < |jobs|
      invariant n <= i <= |jobs|
      invariant Bumped(sh, shard.View(), Around(jobs, n, i))
    {
      ReleaseOne(sh, shard.View(), jobs, n, i);
      shard.ResolvePending(jobs[i].key);
      i := i + 1;
    }
  }

  /**
    The jobs of one shard are offered to a queue with room for `room` more.  The pending
    counts of those it does not take are released again, and nothing else changes.
   */
  method EnqueueDirty(shard: CacheShard, room: nat) returns (accepted: seq<FlushJob>)
    requires Consistent(shard.View())
    modifies shard
    ensures |accepted| <= room
    ensures Bumped(old(shard.View()), shard.View(), JobKeys(accepted))
    ensures Consistent(shard.View())
  {
    var jobs := CollectJobs(shard);
    RegisterJobs(shard, jobs);
    var n := if |jobs| <= room then |jobs| else room;
    ReleaseJobs(shard, jobs, n, old(shard.View()));
    accepted := jobs[..n];
    BumpedIsConsistent(old(shard.View()), shard.View(), JobKeys(accepted));
  }

  // ---------------------------------------------------------------- close

  /** Distinct shard objects in a consistent state, each holding only keys routed to it. */
  ghost predicate Closable(shards: seq<CacheShard>, route: Key -> nat)
    reads shards
  {
    && Separate(shards)
    && (forall i :: 0 <= i < |shards| ==> Consistent(shards[i].View()) && Routed(shards[i].View(), route, i))
  }

  ghost predicate Routed(sh: Shard, route: Key -> nat, i: nat) {
    forall k :: k in sh.entries || k in sh.tombs ==> route(k) == i
  }

  /** Some shard still has something to flush. */
  ghost predicate Owing(views: seq<Shard>) {
    exists i, k :: 0 <= i < |views| && Unflushed(views[i], k)
  }

  /** A flush of other keys leaves a persisted shard persisted. */
  lemma PersistedStays(sh: Shard, sh1: Shard, other: Shard, src: Source, src': Source, route: Key -> nat, i: nat,
                       j: nat)
    requires i != j && Routed(sh, route, i) && Routed(other, route, j)
    requires forall k :: !Unflushed(other, k) ==> SameAt(src.data, src'.data, k)
    requires Persisted(sh, sh1, src.data)
    ensures Persisted(sh, sh1, src'.data)
  {
    forall k | k in sh.entries || k in sh.tombs ensures SameAt(src.data, src'.data, k) {
      assert route(k) == i;
      assert !Unflushed(other, k);
    }
  }

  /** The outcome once the first `n` shards are flushed. */
  ghost predicate Swept(before: seq<Shard>, src: Source, after: seq<Shard>, src': Source, failed: bool, retries: nat,
                        n: nat)
    requires n <= |before| == |after|
  {
    && (forall i :: n <= i < |before| ==> after[i] == before[i])
    && (forall i :: 0 <= i < n ==> OnlyCleans(before[i], after[i]))
    && (failed <==> src.failures > retries && Owing(before[..n]))
    && (!failed ==> (src'.failures <= retries <==> src.failures <= retries))
    && (!failed ==> forall i :: 0 <= i < n ==> Persisted(before[i], after[i], src'.data))
    && (forall k :: (forall i :: 0 <= i < |before| ==> !Unflushed(before[i], k)) ==> SameAt(src.data, src'.data, k))
  }

  lemma OwingStep(before: seq<Shard>, n: nat)
    requires n < |before|
    ensures Owing(before[..n + 1]) <==> Owing(before[..n]) || exists k :: Unflushed(before[n], k)
  {
    assert before[..n + 1] == before[..n] + [before[n]];
    if Owing(before[..n]) {
      var i, k :| 0 <= i < n && Unflushed(before[..n][i], k);
      assert Unflushed(before[..n + 1][i], k);
    }
    if k :| Unflushed(before[n], k) {
      assert Unflushed(before[..n + 1][n], k);
    }
  }

  lemma SweepOne(before: seq<Shard>, src: Source, mid: seq<Shard>, src1: Source, failed: bool,
                 after: seq<Shard>, src': Source, f: bool, retries: nat, n: nat, route: Key -> nat)
    requires n < |before| == |mid| == |after|
    requires forall i :: 0 <= i < |before| ==> Routed(before[i], route, i)
    requires Swept(before, src, mid, src1, failed, retries, n)
    requires forall i :: 0 <= i < |before| && i != n ==> after[i] == mid[i]
    requires ShardFlushed(before[n], src1, after[n], src', f, retries)
    ensures Swept(before, src, after, src', failed || f, retries, n + 1)
  {
    OwingStep(before, n);
    forall k | forall i :: 0 <= i < |before| ==> !Unflushed(before[i], k) ensures SameAt(src.data, src'.data, k) {
      assert SameAt(src.data, src1.data, k);
      assert !Unflushed(before[n], k);
    }
    if !failed && !f {
      forall i | 0 <= i < n ensures Persisted(before[i], after[i], src'.data) {
        PersistedStays(before[i], after[i], before[n], src1, src', route, i, n);
      }
    }
  }

  method EnqueueAll(shards: seq<CacheShard>, room: nat, ghost route: Key -> nat)
    requires Closable(shards, route)
    modifies shards
    ensures Closable(shards, route)
    ensures forall i :: 0 <= i < |shards| ==> shards[i].View() == old(shards[i].View()).(pending := shards[i].pending)
  {
    var left: nat := room;
    var n := 0;
    while n < |shards|
      invariant 0 <= n <= |shards|
      invariant Closable(shards, route)
      invariant forall i :: 0 <= i < |shards| ==>
                  shards[i].View() == old(shards[i].View()).(pending := shards[i].pending)
    {
      var accepted := EnqueueDirty(shards[n], left);
      left := left - |accepted|;
      n := n + 1;
    }
  }

  /** Pending counts do not matter to the flush. */
  lemma SweptWithPending(before: seq<Shard>, queued: seq<Shard>, src: Source, after: seq<Shard>, src': Source,
                         failed: bool, retries: nat)
    requires |before| == |queued| == |after|
    requires forall i :: 0 <= i < |before| ==> queued[i] == before[i].(pending := queued[i].pending)
    requires Swept(queued, src, after, src', failed, retries, |queued|)
    ensures Swept(before, src, after, src', failed, retries, |before|)
  {
    assert forall i, k :: 0 <= i < |before| ==> (Unflushed(queued[i], k) <==> Unflushed(before[i], k));
    assert before[..|before|] == before && queued[..|queued|] == queued;
    assert Owing(queued) <==> Owing(before);
  }

  method FlushAll(shards: seq<CacheShard>, source: SlowDictBackend, retries: nat, ghost route: Key -> nat)
    returns (failed: bool)
    requires Closable(shards, route)
    modifies shards, source
    ensures failed <==> old(source.failures) > retries && Owing(old(Views(shards)))
    ensures forall i :: 0 <= i < |shards| ==> OnlyCleans(old(shards[i].View()), shards[i].View())
    ensures !failed ==> forall i :: 0 <= i < |shards| ==>
              Persisted(old(shards[i].View()), shards[i].View(), source.data)
    ensures forall k :: (forall i :: 0 <= i < |shards| ==> !Unflushed(old(shards[i].View()), k)) ==>
              SameAt(old(source.data), source.data, k)
    ensures Swept(old(Views(shards)), old(source.View()), Views(shards), source.View(), failed, retries, |shards|)
  {
    ghost var before := Views(shards);
    failed := false;
    var n := 0;
    while n < |shards|
      invariant 0 <= n <= |shards|
      invariant Swept(before, old(source.View()), Views(shards), source.View(), failed, retries, n)
    {
      ghost var mid, src := Views(shards), source.View();
      var f := FlushShard(shards[n], source, retries);
      SweepOne(before, old(source.View()), mid, src, failed, Views(shards), source.View(), f, retries, n, route);
      failed := failed || f;
      n := n + 1;
    }
    assert before[..n] == before;
  }

  /**
    `close(flush=True)` of a write-back cache whose workers do not run.  It raises exactly
    when something is unflushed and the source fails more often than one job may retry; when
    it returns normally, all that was unflushed is persisted.
   */
  method Close(shards: seq<CacheShard>, source: SlowDictBackend, retries: nat, room: nat, ghost route: Key -> nat)
    returns (raised: bool)
    requires Closable(shards, route)
    modifies shards, source
    ensures raised <==> old(source.failures) > retries && Owing(old(Views(shards)))
    ensures forall i :: 0 <= i < |shards| ==> OnlyCleans(old(shards[i].View()), shards[i].View())
    ensures !raised ==> forall i :: 0 <= i < |shards| ==>
              Persisted(old(shards[i].View()), shards[i].View(), source.data)
    ensures forall k :: (forall i :: 0 <= i < |shards| ==> !Unflushed(old(shards[i].View()), k)) ==>
              SameAt(old(source.data), source.data, k)
  {
    ghost var before := Views(shards);
    EnqueueAll(shards, room, route);
    ghost var queued := Views(shards);
    raised := FlushAll(shards, source, retries, route);
    SweptWithPending(before, queued, old(source.View()), Views(shards), source.View(), raised, retries);
    assert before[..|shards|] == before;
  }
}
