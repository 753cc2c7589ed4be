/** With one worker the source follows the newest write of every key. */
module WriteBackConvergence {
  import opened Prelude
  import opened Shards
  import opened WriteBack
  import opened WriteBackInvariant
  import opened WriteBackSafety

  /** The source holds what the write asks for: its value, or nothing after a delete. */
  predicate Reflects(source: map<Key, Value>, w: Write) {
    match w.op
    case PutOp(v) => w.key in source && source[w.key] == v
    case DeleteOp => w.key !in source
  }

  /**
    The newest write of `k` was lost, is still on its way to the source, or has reached it
    with no older job of `k` left past its stale check.
   */
  ghost predicate Settling(s: State, k: Key) {
    var last := Last(s.log, k);
    last.Some? ==>
      || last.value in s.lost
      || (last.value in s.jobs && !s.jobs[last.value].place.Applied?)
      || (Reflects(s.source, s.log[last.value])
          && forall id :: id in s.jobs && s.jobs[id].key == k && s.jobs[id].place.Passed? ==> last == Some(id))
  }

  ghost predicate Converging(s: State) {
    forall k :: Settling(s, k)
  }

  lemma RecordConverges(c: Config, s: State, k: Key, op: Op, version: nat, sh': Shard)
    requires Shaped(c, s) && Logged(s.jobs, s) && Converging(s)
    ensures Converging(Record(c, s, k, op, version, sh'))
  {
    var s' := Record(c, s, k, op, version, sh');
    LastAppend(s.log, Write(k, op));
    forall j ensures Settling(s', j) {
      assert Settling(s, j);
    }
  }

  lemma {:induction false} DeleteKeysConverges(c: Config, s: State, ks: seq<Key>, i: nat)
    requires Inv(c, s) && Converging(s) && i < c.shardCount && forall k :: k in ks ==> c.route(k) == i
    ensures Converging(DeleteKeys(c, s, ks))
    decreases |ks|
  {
    if ks != [] {
      DeleteInv(c, s, ks[0]);
      var sh := ShardAt(c, s, ks[0]);
      RecordConverges(c, s, ks[0], DeleteOp, Get(sh.marks, ks[0]) + 1, Delete(sh, ks[0], Mode.WriteBack));
      DeleteKeysConverges(c, DeleteFrom(c, s, ks[0]), ks[1..], i);
    }
  }

  /** A job moves without reaching the source; one that passes is the newest of its key. */
  lemma MoveConverges(s: State, s': State, id: nat, job: Job)
    requires Converging(s) && id in s.jobs && job.key == s.jobs[id].key
    requires s' == s.(jobs := s.jobs[id := job], queue := s'.queue)
    requires !job.place.Applied? && !s.jobs[id].place.Applied?
    requires job.place.Passed? ==> Last(s.log, job.key) == Some(id)
    ensures Converging(s')
  {
    forall k ensures Settling(s', k) {
      assert Settling(s, k);
    }
  }

  lemma ApplyConverges(c: Config, s: State, id: nat)
    requires Inv(c, s) && Converging(s) && c.workers <= 1 && Enabled(c, s, ApplyStep(id))
    ensures Converging(Do(c, s, ApplyStep(id)))
  {
    var s' := Do(c, s, ApplyStep(id));
    var job := s.jobs[id];
    forall k ensures Settling(s', k) {
      assert Settling(s, k);
      if k == job.key && Last(s.log, k) == Some(id) {
        assert forall b :: b in s.jobs && s.jobs[b].place.Passed? ==> b == id;
      }
    }
  }

  lemma SettleConverges(s: State, s': State, id: nat)
    requires Converging(s) && id in s.jobs
    requires s' == s.(shards := s'.shards, jobs := s.jobs - {id}, lost := s'.lost, counts := s'.counts)
    requires s.lost <= s'.lost
    requires s.jobs[id].place.Applied? || Last(s.log, s.jobs[id].key) != Some(id) || id in s'.lost
    requires id < |s.log| && s.jobs[id].key == s.log[id].key
    ensures Converging(s')
  {
    forall k ensures Settling(s', k) {
      assert Settling(s, k);
    }
  }

  lemma QuietConverges(s: State, s': State)
    requires Converging(s) && s' == s.(shards := s'.shards)
    ensures Converging(s')
  {
    forall k ensures Settling(s', k) {
      assert Settling(s, k);
    }
  }

  lemma ClientConverges(c: Config, s: State, step: Step)
    requires Inv(c, s) && Converging(s) && Enabled(c, s, step) && !Internal(step)
    ensures Converging(Do(c, s, step))
  {
    if step.PutStep? {
      var sh := ShardAt(c, s, step.key);
      RecordConverges(c, s, step.key, PutOp(step.value), PutVersion(sh, step.key, step.now),
                      Put(sh, step.key, step.value, step.ttl, step.now, Mode.WriteBack, c.defaultTtl));
    } else if step.DeleteStep? {
      var sh := ShardAt(c, s, step.key);
      RecordConverges(c, s, step.key, DeleteOp, Get(sh.marks, step.key) + 1, Delete(sh, step.key, Mode.WriteBack));
    } else if step.ClearStep? {
      var ks := s.shards[step.shard].order;
      DeleteKeysConverges(c, s, ks, step.shard);
      QuietConverges(DeleteKeys(c, s, ks), Do(c, s, step));
    } else {
      QuietConverges(s, Do(c, s, step));
    }
  }

  lemma JobConverges(c: Config, s: State, step: Step)
    requires Inv(c, s) && Converging(s) && c.workers <= 1 && Enabled(c, s, step) && Internal(step)
    ensures Converging(Do(c, s, step))
  {
    var s' := Do(c, s, step);
    match step
    case TakeStep(w) => MoveConverges(s, s', s.queue[0], s'.jobs[s.queue[0]]);
    case EnqueueStep(id) => MoveConverges(s, s', id, s'.jobs[id]);
    case RetryStep(id) => MoveConverges(s, s', id, s'.jobs[id]);
    case PassStep(id) => StaleIffLater(c, s, id); MoveConverges(s, s', id, s'.jobs[id]);
    case SkipStep(id) => StaleIffLater(c, s, id); SettleConverges(s, s', id);
    case ApplyStep(id) => ApplyConverges(c, s, id);
    case RejectStep(id) => SettleConverges(s, s', id);
    case RetryDroppedStep(id) => SettleConverges(s, s', id);
    case GiveUpStep(id) => SettleConverges(s, s', id);
    case FinishStep(id) => SettleConverges(s, s', id);
  }

  lemma StepConverges(c: Config, s: State, step: Step)
    requires Inv(c, s) && Converging(s) && c.workers <= 1 && Enabled(c, s, step)
    ensures Converging(Do(c, s, step))
  {
    if Internal(step) {
      JobConverges(c, s, step);
    } else {
      ClientConverges(c, s, step);
    }
  }
}
