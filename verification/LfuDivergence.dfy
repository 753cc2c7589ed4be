/**
  With one worker LFU can still leave an older value in the source for good, in every
  configuration in which some shard has more keys routed to it than it holds; and with that
  the exact condition under which a configuration always converges.
 */
module LfuDivergence {
  import opened Prelude
  import opened Policies
  import opened Shards
  import opened Cells
  import opened Runs
  import opened Capacity
  import opened WriteBack
  import opened WriteBackInvariant
  import opened WriteBackConvergence
  import opened Homes
  import opened WriteBackTheorems
  import opened WriteBackAccounts
  import opened WriteBackLimits
  import opened SelfEviction

  // ---------------------------------------------------------------- a shard full of warm keys

  /** The shard holds exactly `ks`, and each of them was used at least twice. */
  ghost predicate Warm(sh: Shard, ks: seq<Key>) {
    && ShardOk(sh) && sh.policy.Lfu?
    && sh.entries.Keys == Elems(ks)
    && forall j :: j in sh.policy.order ==> Freq(sh.policy.freq, j) >= 2
  }

  lemma TouchWarms(sh: Shard, k: Key)
    requires ShardOk(sh) && sh.policy.Lfu? && k in sh.entries && sh.entries[k].expiresAt == None
    ensures var sh' := Read(sh, k, true, 0.0).1;
            && ShardOk(sh') && sh'.entries.Keys == sh.entries.Keys && sh'.policy == OnGet(sh.policy, k)
  {
    ReadOk(sh, k, true, 0.0);
  }

  lemma UsedTwice(p: Policy, k: Key)
    requires Ok(p) && p.Lfu? && k !in p.order && forall j :: j in p.order ==> Freq(p.freq, j) >= 2
    ensures var p' := OnGet(OnPut(p, k), k);
            p'.Lfu? && forall j :: j in p'.order ==> Freq(p'.freq, j) >= 2
  {
  }

  lemma RoomyKeys(sh: Shard, k: Key, v: Value, defaultTtl: Option<real>, put: Shard)
    requires ShardOk(sh) && k !in sh.entries && |sh.order| < sh.capacity
    requires put == Put(sh, k, v, NoExpiry, 0.0, Mode.WriteBack, defaultTtl)
    ensures ShardOk(put) && put.policy == OnPut(sh.policy, k)
    ensures put.entries.Keys == sh.entries.Keys + {k} && put.entries[k].expiresAt == None
  {
    RoomyPut(sh, k, v, NoExpiry, 0.0, Mode.WriteBack, defaultTtl);
  }

  lemma WarmOneMore(sh: Shard, ks: seq<Key>, k: Key, v: Value, defaultTtl: Option<real>, put: Shard, sh': Shard)
    requires Warm(sh, ks) && NoDup(ks + [k]) && |ks| < sh.capacity
    requires put == Put(sh, k, v, NoExpiry, 0.0, Mode.WriteBack, defaultTtl) && sh' == Read(put, k, true, 0.0).1
    ensures Warm(sh', ks + [k])
  {
    WarmSize(sh, ks, k);
    RoomyKeys(sh, k, v, defaultTtl, put);
    TouchWarms(put, k);
    WarmFrom(sh, ks, k, sh');
  }

  lemma WarmFrom(sh: Shard, ks: seq<Key>, k: Key, sh': Shard)
    requires Warm(sh, ks) && k !in sh.entries
    requires ShardOk(sh') && sh'.entries.Keys == sh.entries.Keys + {k} && sh'.policy == OnGet(OnPut(sh.policy, k), k)
    ensures Warm(sh', ks + [k])
  {
    UsedTwice(sh.policy, k);
    assert Elems(ks + [k]) == Elems(ks) + {k};
  }

  lemma WarmSize(sh: Shard, ks: seq<Key>, k: Key)
    requires Warm(sh, ks) && NoDup(ks + [k])
    ensures k !in sh.entries && |sh.order| == |ks|
  {
    NoDupSnoc(ks, k);
    SameKeysSameLength(sh.order, ks);
  }

  /** Nothing was enqueued yet, and all jobs are for keys of `ks`. */
  ghost predicate Unqueued(s: State, ks: seq<Key>) {
    && s.queue == [] && s.lost == {}
    && forall id :: id in s.jobs ==> id < |s.log| && s.jobs[id].place == Created && s.jobs[id].key in ks
  }

  /** Writing and reading the keys one after another warms the shard. */
  lemma {:induction false} Fill(c: Config, source: map<Key, Value>, i: nat, ks: seq<Key>, v: Value)
    returns (r: Run<State, Step>)
    requires ValidConfig(c) && c.kind == LFU && i < c.shardCount && NoDup(ks) && |ks| <= CapacityOf(c, i)
    requires forall k :: k in ks ==> c.route(k) == i
    ensures Execution(c, source, r) && Unqueued(Final(r), ks) && Warm(Final(r).shards[i], ks)
    decreases |ks|
  {
    if ks == [] {
      r := Run([Init(c, source)], []);
      assert Elems(ks) == {};
    } else {
      var front, k := ks[..|ks| - 1], ks[|ks| - 1];
      assert ks == front + [k];
      NoDupSnoc(front, k);
      r := Fill(c, source, i, front, v);
      r := FillOne(c, source, r, i, front, k, v);
    }
  }

  lemma PutExactly(c: Config, source: map<Key, Value>, r: Run<State, Step>, k: Key, v: Value)
    returns (r': Run<State, Step>)
    requires Execution(c, source, r)
    ensures Execution(c, source, r') && Final(r') == PutTo(c, Final(r), k, v, NoExpiry, 0.0)
  {
    r' := Extend(c, source, r, PutStep(k, v, NoExpiry, 0.0));
  }

  lemma FillOne(c: Config, source: map<Key, Value>, r: Run<State, Step>, i: nat, ks: seq<Key>, k: Key, v: Value)
    returns (r': Run<State, Step>)
    requires Execution(c, source, r) && i < c.shardCount && c.route(k) == i
    requires Unqueued(Final(r), ks) && Warm(Final(r).shards[i], ks) && NoDup(ks + [k]) && |ks| < CapacityOf(c, i)
    ensures Execution(c, source, r') && Unqueued(Final(r'), ks + [k]) && Warm(Final(r').shards[i], ks + [k])
  {
    AlwaysHomed(c, source, r);
    var sh := Final(r).shards[i];
    r' := PutExactly(c, source, r, k, v);
    var put := Final(r').shards[i];
    OneMoreUnqueued(Final(r), ks, k, Final(r'));
    r' := Extend(c, source, r', ReadStep(k, true, 0.0));
    WarmOneMore(sh, ks, k, v, c.defaultTtl, put, Final(r').shards[i]);
  }

  lemma OneMoreUnqueued(s: State, ks: seq<Key>, k: Key, s': State)
    requires Unqueued(s, ks) && s'.queue == s.queue && s'.lost == s.lost && |s'.log| == |s.log| + 1
    requires |s.log| in s'.jobs && s'.jobs == s.jobs[|s.log| := s'.jobs[|s.log|]]
    requires s'.jobs[|s.log|].key == k && s'.jobs[|s.log|].place == Created
    ensures Unqueued(s', ks + [k])
  {
  }

  /** Every crowded LFU configuration reaches a state in which the next new key evicts itself. */
  lemma SelfEvictingStateExists(c: Config, source: map<Key, Value>, i: nat, ks: seq<Key>, v: Value)
    returns (r: Run<State, Step>)
    requires ValidConfig(c) && c.kind == LFU && Crowds(c, i, ks)
    ensures var k := ks[|ks| - 1];
            && Execution(c, source, r) && Unqueued(Final(r), ks[..|ks| - 1])
            && Warm(ShardAt(c, Final(r), k), ks[..|ks| - 1]) && SelfEvicts(ShardAt(c, Final(r), k), k)
  {
    var front, k := ks[..|ks| - 1], ks[|ks| - 1];
    assert ks == front + [k];
    NoDupSnoc(front, k);
    assert k in ks && forall j :: j in front ==> j in ks;
    r := Fill(c, source, i, front, v);
    WarmSize(Final(r).shards[i], front, k);
    AlwaysHomed(c, source, r);
    NothingPending(c, source, r, front, k);
  }

  lemma NothingPending(c: Config, source: map<Key, Value>, r: Run<State, Step>, ks: seq<Key>, k: Key)
    requires Execution(c, source, r) && Unqueued(Final(r), ks) && k !in ks
    ensures Get(ShardAt(c, Final(r), k).pending, k) == 0
  {
    PendingIsExact(c, source, r, k);
    assert Out(Final(r).jobs, k) == {};
  }

  // ---------------------------------------------------------------- two jobs with one version

  /** All jobs wait to be enqueued, and `older` and `newer` are the jobs of `k`. */
  ghost predicate Waiting(s: State, k: Key, jobs: set<nat>) {
    && s.queue == [] && s.lost == {}
    && (forall id :: id in s.jobs ==> id < |s.log| && s.jobs[id].place == Created)
    && forall id :: id in s.jobs && s.jobs[id].key == k <==> id in jobs
  }

  /** Outstanding job `id` puts `v` under `k` with version 1. */
  predicate PutsFirst(s: State, id: nat, k: Key, v: Value) {
    id in s.jobs && s.jobs[id].key == k && s.jobs[id].op == PutOp(v) && s.jobs[id].version == 1
  }

  lemma FirstWrite(c: Config, source: map<Key, Value>, r: Run<State, Step>, ks: seq<Key>, k: Key, a: Value)
    returns (r': Run<State, Step>)
    requires Execution(c, source, r) && Unqueued(Final(r), ks) && k !in ks && SelfEvicts(ShardAt(c, Final(r), k), k)
    ensures Execution(c, source, r')
    ensures var s := Final(r);
            var s' := Final(r');
            && Unmarked(c, s', k, |s.log|) && PutsFirst(s', |s.log|, k, a) && Waiting(s', k, {|s.log|})
            && s'.log == s.log + [Write(k, PutOp(a))] && s'.source == s.source
            && Get(ShardAt(c, s', k).pending, k) == 1
            && ShardAt(c, s, k).entries.Keys <= ShardAt(c, s', k).entries.Keys
  {
    AlwaysHomed(c, source, r);
    assert Home(c, ShardAt(c, Final(r), k), c.route(k));
    SelfEvictionKeepsTheRest(ShardAt(c, Final(r), k), k, a, c.defaultTtl);
    r' := PutExactly(c, source, r, k, a);
    PutPending(ShardAt(c, Final(r), k), k, a, NoExpiry, 0.0, c.defaultTtl);
    FirstJob(c, Final(r), ks, k, a, Final(r'));
  }

  lemma FirstJob(c: Config, s: State, ks: seq<Key>, k: Key, a: Value, s': State)
    requires Homed(c, s) && Unqueued(s, ks) && k !in ks && SelfEvicts(ShardAt(c, s, k), k)
    requires s' == PutTo(c, s, k, a, NoExpiry, 0.0)
    ensures Unmarked(c, s', k, |s.log|) && PutsFirst(s', |s.log|, k, a) && Waiting(s', k, {|s.log|})
  {
    SelfEvictionUnmarks(c, s, PutStep(k, a, NoExpiry, 0.0), s');
    var id := |s.log|;
    OnlyJob(s, ks, k, s', s'.jobs[id]);
    assert s'.jobs[id].op == PutOp(a);
  }

  lemma OnlyJob(s: State, ks: seq<Key>, k: Key, s': State, job: Job)
    requires Unqueued(s, ks) && k !in ks && job.key == k && job.place == Created
    requires s'.jobs == s.jobs[|s.log| := job] && |s'.log| == |s.log| + 1 && s'.queue == s.queue && s'.lost == s.lost
    ensures Waiting(s', k, {|s.log|})
  {
  }

  lemma SelfEvictionKeepsTheRest(sh: Shard, k: Key, v: Value, defaultTtl: Option<real>)
    requires ShardOk(sh) && SelfEvicts(sh, k)
    ensures sh.entries.Keys <= Put(sh, k, v, NoExpiry, 0.0, Mode.WriteBack, defaultTtl).entries.Keys
  {
    SelfEvictionIff(sh, k, v, NoExpiry, 0.0, Mode.WriteBack, defaultTtl);
    PutEvictsCandidate(sh, k, v, NoExpiry, 0.0, Mode.WriteBack, defaultTtl);
  }

  /** A delete of another key makes room. */
  lemma MakeRoom(c: Config, source: map<Key, Value>, r: Run<State, Step>, j: Key, k: Key, older: nat)
    returns (r': Run<State, Step>)
    requires Execution(c, source, r) && Unmarked(c, Final(r), k, older) && Waiting(Final(r), k, {older})
    requires j != k && c.route(j) == c.route(k) && j in ShardAt(c, Final(r), k).entries
    requires older in Final(r).jobs && Get(ShardAt(c, Final(r), k).pending, k) == 1
    ensures Execution(c, source, r')
    ensures var s := Final(r);
            var s' := Final(r');
            && Unmarked(c, s', k, older) && Waiting(s', k, {older}) && s'.source == s.source
            && older in s'.jobs && s'.jobs[older] == s.jobs[older]
            && Get(ShardAt(c, s', k).pending, k) == 1
            && |ShardAt(c, s', k).order| < ShardAt(c, s', k).capacity
  {
    var s, sh := Final(r), ShardAt(c, Final(r), k);
    assert Home(c, sh, c.route(k));
    r' := Extend(c, source, r, DeleteStep(j));
    StepUnmarked(c, s, DeleteStep(j), Final(r'), k, older);
    RoomInShard(sh, j, k, Delete(sh, j, Mode.WriteBack));
    StillWaiting(s, Final(r'), j, k, older);
  }

  lemma RoomInShard(sh: Shard, j: Key, k: Key, sh': Shard)
    requires ShardOk(sh) && j != k && j in sh.entries && sh' == Delete(sh, j, Mode.WriteBack)
    ensures Get(sh'.pending, k) == Get(sh.pending, k) && |sh'.order| < sh'.capacity
  {
    DeleteCells(sh, j);
    assert CellOf(sh', k).pending == CellOf(sh, k).pending;
  }

  lemma StillWaiting(s: State, s': State, j: Key, k: Key, older: nat)
    requires Waiting(s, k, {older}) && j != k && |s'.log| == |s.log| + 1 && s'.queue == s.queue && s'.lost == s.lost
    requires |s.log| in s'.jobs && s'.jobs == s.jobs[|s.log| := s'.jobs[|s.log|]]
    requires s'.jobs[|s.log|].key == j && s'.jobs[|s.log|].place == Created
    ensures Waiting(s', k, {older}) && (older in s.jobs ==> older in s'.jobs && s'.jobs[older] == s.jobs[older])
  {
  }

  lemma RoomyRewrite(sh: Shard, k: Key, b: Value, defaultTtl: Option<real>)
    requires ShardOk(sh) && |sh.order| < sh.capacity && CellOf(sh, k) == Cell(None, None, None, 1)
    ensures var sh' := Put(sh, k, b, NoExpiry, 0.0, Mode.WriteBack, defaultTtl);
            && CellOf(sh', k) == Cell(Some(Live(b, 1, true)), Some(1), None, 2)
            && PutVersion(sh, k, 0.0) == 1
  {
    RoomyPut(sh, k, b, NoExpiry, 0.0, Mode.WriteBack, defaultTtl);
    PutCells(sh, k, b, NoExpiry, 0.0, defaultTtl);
  }

  lemma SecondWrite(c: Config, source: map<Key, Value>, r: Run<State, Step>, k: Key, a: Value, b: Value, older: nat)
    returns (r': Run<State, Step>)
    requires Execution(c, source, r) && Unmarked(c, Final(r), k, older) && Waiting(Final(r), k, {older})
    requires PutsFirst(Final(r), older, k, a) && Get(ShardAt(c, Final(r), k).pending, k) == 1
    requires |ShardAt(c, Final(r), k).order| < ShardAt(c, Final(r), k).capacity
    ensures Execution(c, source, r')
    ensures var s := Final(r);
            var s' := Final(r');
            && PutsFirst(s', older, k, a) && PutsFirst(s', |s.log|, k, b) && Waiting(s', k, {older, |s.log|})
            && s'.log == s.log + [Write(k, PutOp(b))] && s'.source == s.source
            && CellAt(c, s', k) == Cell(Some(Live(b, 1, true)), Some(1), None, 2)
  {
    var sh := ShardAt(c, Final(r), k);
    assert Home(c, sh, c.route(k)) && Tidy(CellOf(sh, k));
    RoomyRewrite(sh, k, b, c.defaultTtl);
    r' := PutExactly(c, source, r, k, b);
  }

  // ---------------------------------------------------------------- flushed in the wrong order

  /** One waiting job is enqueued, taken, checked, applied and finished. */
  lemma FlushOne(c: Config, source: map<Key, Value>, r: Run<State, Step>, k: Key, jobs: set<nat>, id: nat, v: Value)
    returns (r': Run<State, Step>)
    requires Execution(c, source, r) && c.workers >= 1 && Waiting(Final(r), k, jobs) && PutsFirst(Final(r), id, k, v)
    requires CellAt(c, Final(r), k).mark == Some(1) && CellAt(c, Final(r), k).tomb.None?
    ensures Execution(c, source, r')
    ensures var s := Final(r);
            var s' := Final(r');
            && Waiting(s', k, jobs - {id}) && s'.log == s.log && s'.source == s.source[k := v]
            && s'.jobs == s.jobs - {id}
            && CellAt(c, s', k) == Resolved(Cleaned(CellAt(c, s, k), 1))
  {
    var s, sh := Final(r), ShardAt(c, Final(r), k);
    r' := EnqueueNext(c, source, r, id);
    r' := TakeNext(c, source, r', id, 0);
    r' := PassNext(c, source, r', id, 0);
    r' := ApplyFinish(c, source, r', id);
    MarkCleanCells(sh, k, 1);
    ResolveCells(MarkClean(sh, k, 1), k);
  }

  /**
    One worker, nothing rejected, nothing given up, and no flush of the key outstanding: yet
    the source holds the older of two values, under an entry that is clean and holds the newer.
   */
  lemma LfuDiverges(c: Config, source: map<Key, Value>, i: nat, ks: seq<Key>, a: Value, b: Value)
    returns (r: Run<State, Step>)
    requires ValidConfig(c) && c.kind == LFU && c.workers >= 1 && Crowds(c, i, ks) && a != b
    ensures Execution(c, source, r)
    ensures var s := Final(r);
            var k := ks[|ks| - 1];
            && Quiescent(s, k) && s.lost == {}
            && s.log[Last(s.log, k).value] == Write(k, PutOp(b))
            && k in s.source && s.source[k] == a
            && CellAt(c, s, k).live == Some(Live(b, 1, false))
  {
    var k := ks[|ks| - 1];
    var older, newer;
    r, older, newer := TwoOfOneVersion(c, source, i, ks, a, b);
    r := FlushOne(c, source, r, k, {older, newer}, newer, b);
    r := FlushOne(c, source, r, k, {older, newer} - {newer}, older, a);
  }

  lemma TwoOfOneVersion(c: Config, source: map<Key, Value>, i: nat, ks: seq<Key>, a: Value, b: Value)
    returns (r: Run<State, Step>, older: nat, newer: nat)
    requires ValidConfig(c) && c.kind == LFU && Crowds(c, i, ks)
    ensures Execution(c, source, r)
    ensures var s := Final(r);
            var k := ks[|ks| - 1];
            && older < newer && PutsFirst(s, older, k, a) && PutsFirst(s, newer, k, b) && Waiting(s, k, {older, newer})
            && Last(s.log, k) == Some(newer) && s.log[newer] == Write(k, PutOp(b))
            && CellAt(c, s, k) == Cell(Some(Live(b, 1, true)), Some(1), None, 2)
  {
    var front, k := ks[..|ks| - 1], ks[|ks| - 1];
    assert ks == front + [k];
    NoDupSnoc(front, k);
    assert front[0] in front && front[0] in ks && k in ks;
    r := SelfEvictingStateExists(c, source, i, ks, a);
    assert front[0] in Elems(front);
    older := |Final(r).log|;
    r := FirstWrite(c, source, r, front, k, a);
    r := MakeRoom(c, source, r, front[0], k, older);
    newer := |Final(r).log|;
    LastAppend(Final(r).log, Write(k, PutOp(b)));
    r := SecondWrite(c, source, r, k, a, b, older);
  }

  // ---------------------------------------------------------------- no worker

  /** Every write has an outstanding job or a lost one, and no job is in a worker's hands. */
  ghost predicate Unserved(s: State) {
    && (forall id :: id in s.jobs ==> id < |s.log| && s.jobs[id].key == s.log[id].key && !Held(s.jobs[id].place))
    && forall id :: 0 <= id < |s.log| ==> id in s.jobs || id in s.lost
  }

  lemma RecordUnserved(c: Config, s: State, k: Key, op: Op, version: nat, sh: Shard)
    requires Shaped(c, s) && Unserved(s)
    ensures Unserved(Record(c, s, k, op, version, sh))
  {
  }

  lemma {:induction false} DeleteKeysUnserved(c: Config, s: State, ks: seq<Key>)
    requires Shaped(c, s) && Unserved(s)
    ensures Unserved(DeleteKeys(c, s, ks))
    decreases |ks|
  {
    if ks != [] {
      var sh := ShardAt(c, s, ks[0]);
      RecordUnserved(c, s, ks[0], DeleteOp, Get(sh.marks, ks[0]) + 1, Delete(sh, ks[0], Mode.WriteBack));
      DeleteKeysUnserved(c, DeleteFrom(c, s, ks[0]), ks[1..]);
    }
  }

  lemma PutUnserved(c: Config, s: State, k: Key, v: Value, ttl: TtlArg, now: real)
    requires Shaped(c, s) && Unserved(s)
    ensures Unserved(PutTo(c, s, k, v, ttl, now))
  {
    var sh := ShardAt(c, s, k);
    RecordUnserved(c, s, k, PutOp(v), PutVersion(sh, k, now), Put(sh, k, v, ttl, now, Mode.WriteBack, c.defaultTtl));
  }

  lemma SameLedger(s: State, s': State)
    requires Unserved(s) && s'.jobs == s.jobs && s'.log == s.log && s'.lost == s.lost
    ensures Unserved(s')
  {
  }

  lemma ClientUnserved(c: Config, s: State, step: Step, s': State)
    requires Unserved(s) && Takes(c, s, step, s') && !Internal(step)
    ensures Unserved(s')
  {
    if step.PutStep? {
      PutUnserved(c, s, step.key, step.value, step.ttl, step.now);
    } else if step.DeleteStep? {
      var sh := ShardAt(c, s, step.key);
      RecordUnserved(c, s, step.key, DeleteOp, Get(sh.marks, step.key) + 1, Delete(sh, step.key, Mode.WriteBack));
    } else if step.ClearStep? {
      DeleteKeysUnserved(c, s, s.shards[step.shard].order);
      SameLedger(DeleteKeys(c, s, s.shards[step.shard].order), s');
    } else {
      SameLedger(s, s');
    }
  }

  lemma UnservedStep(c: Config, s: State, step: Step, s': State)
    requires c.workers == 0 && Unserved(s) && Takes(c, s, step, s')
    ensures Unserved(s')
  {
    if Internal(step) {
      assert step.EnqueueStep? || step.RejectStep?;
    } else {
      ClientUnserved(c, s, step, s');
    }
  }

  /** Without a worker no key with a write is ever quiescent. */
  lemma NeverQuiescent(c: Config, source: map<Key, Value>, r: Run<State, Step>, k: Key)
    requires Execution(c, source, r) && c.workers == 0
    ensures !Quiescent(Final(r), k)
  {
    forall s, step, s' | Unserved(s) && Steps(c)(s, step, s') ensures Unserved(s') {
      UnservedStep(c, s, step, s');
    }
    Invariance(Steps(c), Unserved, r, |r.steps|);
  }

  // ---------------------------------------------------------------- the exact condition

  /**
    A configuration always converges if and only if it has no worker, or exactly one and no
    put can evict its own key: the policy is LRU or FIFO, or no shard has more keys routed to
    it than it holds.
   */
  lemma ConvergesIff(c: Config, k: Key, a: Value, b: Value)
    requires ValidConfig(c) && a != b
    ensures AlwaysConverges(c) <==> c.workers == 0 || (c.workers == 1 && Spares(c))
  {
    if c.workers == 0 {
      forall source, r, k | Execution(c, source, r) ensures !Quiescent(Final(r), k) {
        NeverQuiescent(c, source, r, k);
      }
    } else if !Spares(c) {
      var i, ks :| Crowds(c, i, ks);
      var r := LfuDiverges(c, map[], i, ks, a, b);
      assert !Reflects(Final(r).source, Final(r).log[Last(Final(r).log, ks[|ks| - 1]).value]);
    } else if c.workers == 1 {
      forall source, r, k | Execution(c, source, r) && Quiescent(Final(r), k)
        ensures Reflects(Final(r).source, Final(r).log[Last(Final(r).log, k).value])
      {
        SparingExecutionIsAHistory(c, source, r);
        OneWorkerConverges(c, source, r, k);
      }
    } else {
      var r := TwoWorkersDiverge(c, map[], k, a, b);
    }
  }
}
