/**
  What the steps of a write-back run write, read off the steps: the log of every execution is
  made of exactly these writes, each with one fresh job, and with one worker the newest step
  that writes a key decides what the source ends up with.
 */
module WriteLog {
  import opened Prelude
  import opened Shards
  import opened Cells
  import opened Runs
  import opened WriteBack
  import opened WriteBackInvariant
  import opened WriteBackConvergence
  import opened WriteBackTheorems
  import opened Homes

  // ---------------------------------------------------------------- the writes of a step

  function DeletesOf(ks: seq<Key>): (r: seq<Write>)
    ensures |r| == |ks| && forall i :: 0 <= i < |ks| ==> r[i] == Write(ks[i], DeleteOp)
  {
    seq(|ks|, i requires 0 <= i < |ks| => Write(ks[i], DeleteOp))
  }

  /** A put or delete writes its key, a clear deletes every key the backend of its shard lists. */
  function WritesOf(s: State, step: Step): seq<Write> {
    match step
    case PutStep(k, v, _, _) => [Write(k, PutOp(v))]
    case DeleteStep(k) => [Write(k, DeleteOp)]
    case ClearStep(i) => if i < |s.shards| then DeletesOf(s.shards[i].order) else []
    case _ => []
  }

  /** A new job: not yet enqueued, for this write, with all its retries left. */
  predicate NewJob(c: Config, job: Job, w: Write) {
    job.key == w.key && job.op == w.op && job.retriesLeft == c.retries && job.attempt == 0 && job.place == Created
  }

  /** The log grew by `ws`, each write got its job, and no other job appeared. */
  ghost predicate Logs(c: Config, s: State, ws: seq<Write>, s': State) {
    && s'.log == s.log + ws
    && (forall id :: |s.log| <= id < |s.log| + |ws| ==> id in s'.jobs && NewJob(c, s'.jobs[id], ws[id - |s.log|]))
    && (forall id :: id in s'.jobs ==> id in s.jobs || |s.log| <= id < |s'.log|)
  }

  lemma RecordLogs(c: Config, s: State, k: Key, op: Op, version: nat, sh: Shard)
    requires Shaped(c, s)
    ensures Logs(c, s, [Write(k, op)], Record(c, s, k, op, version, sh))
  {
  }

  lemma LogsThen(c: Config, s: State, w: Write, s1: State, ws: seq<Write>, s2: State)
    requires Logs(c, s, [w], s1) && Logs(c, s1, ws, s2)
    requires forall id :: id in s1.jobs && id < |s1.log| ==> id in s2.jobs && s2.jobs[id] == s1.jobs[id]
    ensures Logs(c, s, [w] + ws, s2)
  {
    assert s2.log == s.log + ([w] + ws);
    forall id | |s.log| <= id < |s.log| + |ws| + 1
      ensures id in s2.jobs && NewJob(c, s2.jobs[id], ([w] + ws)[id - |s.log|])
    {
      if id == |s.log| {
        assert NewJob(c, s1.jobs[id], [w][id - |s.log|]);
      } else {
        assert NewJob(c, s2.jobs[id], ws[id - |s1.log|]);
      }
    }
  }

  /** The deletes of a clear, one after the other. */
  lemma {:induction false} DeleteKeysLogs(c: Config, s: State, ks: seq<Key>)
    requires Shaped(c, s)
    ensures Logs(c, s, DeletesOf(ks), DeleteKeys(c, s, ks))
    ensures forall id :: id in s.jobs && id < |s.log| ==>
              id in DeleteKeys(c, s, ks).jobs && DeleteKeys(c, s, ks).jobs[id] == s.jobs[id]
    decreases |ks|
  {
    if ks != [] {
      var s1, s2 := DeleteFrom(c, s, ks[0]), DeleteKeys(c, s, ks);
      var sh := ShardAt(c, s, ks[0]);
      RecordLogs(c, s, ks[0], DeleteOp, Get(sh.marks, ks[0]) + 1, Delete(sh, ks[0], Mode.WriteBack));
      DeleteKeysLogs(c, s1, ks[1..]);
      LogsThen(c, s, Write(ks[0], DeleteOp), s1, DeletesOf(ks[1..]), s2);
      assert DeletesOf(ks) == [Write(ks[0], DeleteOp)] + DeletesOf(ks[1..]);
    }
  }

  lemma ClearLogs(c: Config, s: State, i: nat)
    requires Shaped(c, s) && i < c.shardCount
    ensures Logs(c, s, DeletesOf(s.shards[i].order), ClearShard(c, s, i))
  {
    DeleteKeysLogs(c, s, s.shards[i].order);
  }

  lemma NoLogs(c: Config, s: State, s': State)
    requires s'.log == s.log && forall id :: id in s'.jobs ==> id in s.jobs
    ensures Logs(c, s, [], s')
  {
  }

  lemma WriteLogs(c: Config, s: State, step: Step, s': State)
    requires Takes(c, s, step, s') && (step.PutStep? || step.DeleteStep?)
    ensures Logs(c, s, WritesOf(s, step), s')
  {
    var sh := ShardAt(c, s, step.key);
    if step.PutStep? {
      RecordLogs(c, s, step.key, PutOp(step.value), PutVersion(sh, step.key, step.now),
                 Put(sh, step.key, step.value, step.ttl, step.now, Mode.WriteBack, c.defaultTtl));
    } else {
      RecordLogs(c, s, step.key, DeleteOp, Get(sh.marks, step.key) + 1, Delete(sh, step.key, Mode.WriteBack));
    }
  }

  lemma QuietLogs(c: Config, s: State, step: Step, s': State)
    requires Takes(c, s, step, s') && !step.PutStep? && !step.DeleteStep? && !step.ClearStep?
    ensures s'.log == s.log && forall id :: id in s'.jobs ==> id in s.jobs
  {
  }

  /** Every step extends the log by exactly its writes. */
  lemma StepLogs(c: Config, s: State, step: Step, s': State)
    requires Takes(c, s, step, s')
    ensures Logs(c, s, WritesOf(s, step), s')
  {
    if step.PutStep? || step.DeleteStep? {
      WriteLogs(c, s, step, s');
    } else if step.ClearStep? {
      ClearLogs(c, s, step.shard);
    } else {
      QuietLogs(c, s, step, s');
      NoLogs(c, s, s');
    }
  }

  /** A clear deletes each key its shard holds once, and no other. */
  lemma ClearWritesHeldKeys(c: Config, source: map<Key, Value>, r: Run<State, Step>, i: nat)
    requires Execution(c, source, r) && i < c.shardCount
    ensures var s := Final(r);
            var ws := WritesOf(s, ClearStep(i));
            && (forall w :: w in ws ==> w.op == DeleteOp && w.key in s.shards[i].entries)
            && (forall k :: k in s.shards[i].entries ==> Write(k, DeleteOp) in ws)
            && (forall a, b :: 0 <= a < b < |ws| ==> ws[a].key != ws[b].key)
  {
    AlwaysHomed(c, source, r);
    var s := Final(r);
    var ks, ws := s.shards[i].order, WritesOf(s, ClearStep(i));
    assert Home(c, s.shards[i], i);
    forall a, b | 0 <= a < b < |ws| ensures ws[a].key != ws[b].key { NoDupIndices(ks, a, b); }
    forall k | k in s.shards[i].entries ensures Write(k, DeleteOp) in ws {
      var n :| 0 <= n < |ks| && ks[n] == k;
      assert ws[n] == Write(k, DeleteOp);
    }
  }

  /** The log grows by the writes of each step. */
  ghost predicate Chained(r: Run<State, Step>) {
    && |r.states| == |r.steps| + 1
    && forall n :: 0 <= n < |r.steps| ==> Grown(r.states[n], r.steps[n], r.states[n + 1])
  }

  predicate Grown(s: State, step: Step, s': State) {
    s'.log == s.log + WritesOf(s, step)
  }

  lemma ExecutionChained(c: Config, source: map<Key, Value>, r: Run<State, Step>)
    requires Execution(c, source, r)
    ensures Chained(r)
  {
    forall n | 0 <= n < |r.steps| ensures Grown(r.states[n], r.steps[n], r.states[n + 1]) {
      assert Steps(c)(r.states[n], r.steps[n], r.states[n + 1]);
      StepLogs(c, r.states[n], r.steps[n], r.states[n + 1]);
    }
  }

  /** The log of an execution is the concatenation of the writes of its steps. */
  function AllWrites(r: Run<State, Step>, n: nat): seq<Write>
    requires n <= |r.steps| < |r.states|
  {
    if n == 0 then [] else AllWrites(r, n - 1) + WritesOf(r.states[n - 1], r.steps[n - 1])
  }

  lemma {:induction false} ChainedLog(r: Run<State, Step>, n: nat)
    requires Chained(r) && r.states[0].log == [] && n <= |r.steps|
    ensures r.states[n].log == AllWrites(r, n)
  {
    if n > 0 {
      ChainedLog(r, n - 1);
      assert Grown(r.states[n - 1], r.steps[n - 1], r.states[n - 1 + 1]);
    }
  }

  lemma LogIsAllWrites(c: Config, source: map<Key, Value>, r: Run<State, Step>)
    requires Execution(c, source, r)
    ensures Final(r).log == AllWrites(r, |r.steps|)
  {
    ExecutionChained(c, source, r);
    ChainedLog(r, |r.steps|);
  }

  // ---------------------------------------------------------------- what a clear does to the cells

  lemma {:induction false} DeleteAllCells(sh: Shard, ks: seq<Key>, k: Key)
    requires NoDup(ks)
    ensures CellOf(DeleteAll(sh, ks, Mode.WriteBack), k) == if k in ks then Deleted(CellOf(sh, k)) else CellOf(sh, k)
    decreases |ks|
  {
    if ks != [] {
      DeleteCells(sh, ks[0]);
      DeleteAllCells(Delete(sh, ks[0], Mode.WriteBack), ks[1..], k);
    }
  }

  /** A write-back clear leaves a tombstone, a version and a pending flush for every key it held, and nothing else. */
  lemma ClearCells(sh: Shard, k: Key)
    requires Tracked(sh)
    ensures CellOf(Clear(sh, Mode.WriteBack), k) == if k in sh.entries then Deleted(CellOf(sh, k)) else CellOf(sh, k)
  {
    DeleteAllCells(sh, sh.order, k);
    SameCells(DeleteAll(sh, sh.order, Mode.WriteBack), Clear(sh, Mode.WriteBack));
  }

  lemma {:induction false} DeleteKeysShards(c: Config, s: State, ks: seq<Key>, i: nat)
    requires Shaped(c, s) && i < c.shardCount && forall k :: k in ks ==> c.route(k) == i
    ensures DeleteKeys(c, s, ks).shards == s.shards[i := DeleteAll(s.shards[i], ks, Mode.WriteBack)]
    decreases |ks|
  {
    if ks != [] { DeleteKeysShards(c, DeleteFrom(c, s, ks[0]), ks[1..], i); }
  }

  /** A clear step is `Clear` on its shard and leaves the others alone. */
  lemma ClearShards(c: Config, s: State, i: nat)
    requires Homed(c, s) && i < c.shardCount
    ensures ClearShard(c, s, i).shards == s.shards[i := Clear(s.shards[i], Mode.WriteBack)]
  {
    assert Home(c, s.shards[i], i);
    forall k | k in s.shards[i].order ensures c.route(k) == i { assert CellOf(s.shards[i], k) != NOTHING; }
    DeleteKeysShards(c, s, s.shards[i].order, i);
  }

  // ---------------------------------------------------------------- what reaches the source

  ghost predicate Writes(s: State, step: Step, k: Key) {
    exists op :: Write(k, op) in WritesOf(s, step)
  }

  /** All writes of one step to one key are the same. */
  lemma OneOp(s: State, step: Step, k: Key, op: Op, w: Write)
    requires Write(k, op) in WritesOf(s, step) && w in WritesOf(s, step) && w.key == k
    ensures w == Write(k, op)
  {
  }

  lemma {:induction false} LastOfAppend(log: seq<Write>, ws: seq<Write>, k: Key)
    ensures (forall w :: w in ws ==> w.key != k) ==> Last(log + ws, k) == Last(log, k)
    ensures (exists w :: w in ws && w.key == k) ==>
              Last(log + ws, k).Some? && |log| <= Last(log + ws, k).value
    decreases |ws|
  {
    if ws == [] {
      assert log + ws == log;
    } else {
      var front, w := ws[..|ws| - 1], ws[|ws| - 1];
      assert (log + ws)[..|log + ws| - 1] == log + front && ws == front + [w];
      LastOfAppend(log, front, k);
    }
  }

  ghost predicate NewestIs(log: seq<Write>, k: Key, op: Op) {
    Last(log, k).Some? && log[Last(log, k).value] == Write(k, op)
  }

  lemma NewlyWritten(s: State, step: Step, log: seq<Write>, k: Key, op: Op)
    requires log == s.log + WritesOf(s, step) && Write(k, op) in WritesOf(s, step)
    ensures NewestIs(log, k, op)
  {
    var ws := WritesOf(s, step);
    LastOfAppend(s.log, ws, k);
    var last := Last(log, k).value;
    assert log[last] == ws[last - |s.log|] && ws[last - |s.log|] in ws;
    OneOp(s, step, k, op, log[last]);
  }

  lemma NotWritten(s: State, step: Step, log: seq<Write>, k: Key, op: Op)
    requires log == s.log + WritesOf(s, step) && !Writes(s, step, k) && NewestIs(s.log, k, op)
    ensures NewestIs(log, k, op)
  {
    forall w | w in WritesOf(s, step) ensures w.key != k { assert w == Write(w.key, w.op); }
    LastOfAppend(s.log, WritesOf(s, step), k);
  }

  /** The newest write of `k` is that of step `n` if no step since has written `k`. */
  lemma {:induction false} NewestOfStep(r: Run<State, Step>, n: nat, m: nat, k: Key, op: Op)
    requires Chained(r) && n < m <= |r.steps|
    requires Write(k, op) in WritesOf(r.states[n], r.steps[n])
    requires forall j :: n < j < m ==> !Writes(r.states[j], r.steps[j], k)
    ensures NewestIs(r.states[m].log, k, op)
    decreases m
  {
    assert Grown(r.states[m - 1], r.steps[m - 1], r.states[m - 1 + 1]);
    if n == m - 1 {
      NewlyWritten(r.states[n], r.steps[n], r.states[m].log, k, op);
    } else {
      NewestOfStep(r, n, m - 1, k, op);
      NotWritten(r.states[m - 1], r.steps[m - 1], r.states[m].log, k, op);
    }
  }

  /**
    With one worker, the newest step that writes a key decides what the source holds of it once
    the key is quiescent: the value of a put, or nothing after a delete or a clear.
   */
  lemma NewestStepReachesSource(c: Config, source: map<Key, Value>, r: Run<State, Step>, n: nat, k: Key, op: Op)
    requires History(c, source, r) && c.workers <= 1 && Quiescent(Final(r), k)
    requires n < |r.steps| && Write(k, op) in WritesOf(r.states[n], r.steps[n])
    requires forall j :: n < j < |r.steps| ==> !Writes(r.states[j], r.steps[j], k)
    ensures Reflects(Final(r).source, Write(k, op))
  {
    ExecutionChained(c, source, r);
    NewestOfStep(r, n, |r.steps|, k, op);
    OneWorkerConverges(c, source, r, k);
  }

  /** In particular a key held at a clear and not written since is gone from the source. */
  lemma ClearedKeyLeavesSource(c: Config, source: map<Key, Value>, r: Run<State, Step>, n: nat, i: nat, k: Key)
    requires History(c, source, r) && c.workers <= 1 && Quiescent(Final(r), k)
    requires n < |r.steps| && r.steps[n] == ClearStep(i) && i < c.shardCount && n < |r.states|
    requires i < |r.states[n].shards| && k in r.states[n].shards[i].entries
    requires forall j :: n < j < |r.steps| ==> !Writes(r.states[j], r.steps[j], k)
    ensures k !in Final(r).source
  {
    HomedAt(c, source, r, n);
    assert Home(c, r.states[n].shards[i], i);
    var ks := r.states[n].shards[i].order;
    var a :| 0 <= a < |ks| && ks[a] == k;
    assert WritesOf(r.states[n], r.steps[n])[a] == Write(k, DeleteOp);
    NewestStepReachesSource(c, source, r, n, k, DeleteOp);
  }
}
