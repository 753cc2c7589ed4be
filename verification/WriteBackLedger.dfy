/** What became of the newest write of every key, in runs without self-evicting puts. */
module WriteBackLedger {
  import opened Prelude
  import opened Shards
  import opened Runs
  import opened WriteBack
  import opened WriteBackInvariant
  import opened WriteBackSafety
  import opened WriteBackTheorems

  /** A job is applied or lost at most once, and then over; until then its place says where it is. */
  ghost predicate Entered(s: State) {
    && (forall id :: id in s.jobs ==> id < |s.log| && id !in s.lost && (id in s.applied <==> s.jobs[id].place.Applied?))
    && (forall id :: id in s.applied ==> id < |s.log| && id !in s.lost)
    && (forall id :: id in s.lost ==> id < |s.log|)
  }

  /** The newest write of `k` is outstanding, applied or lost: it is never skipped as stale. */
  ghost predicate Fated(s: State, k: Key) {
    var last := Last(s.log, k);
    last.Some? ==> last.value in s.jobs || last.value in s.applied || last.value in s.lost
  }

  ghost predicate Ledger(s: State) {
    Entered(s) && forall k :: Fated(s, k)
  }

  lemma RecordLedger(c: Config, s: State, k: Key, op: Op, version: nat, sh: Shard, s': State)
    requires Shaped(c, s) && Ledger(s) && s' == Record(c, s, k, op, version, sh)
    ensures Ledger(s')
  {
    LastAppend(s.log, Write(k, op));
    forall j ensures Fated(s', j) {
      assert Fated(s, j);
    }
  }

  lemma {:induction false} DeleteKeysLedger(c: Config, s: State, ks: seq<Key>)
    requires Shaped(c, s) && Ledger(s)
    ensures Ledger(DeleteKeys(c, s, ks))
    decreases |ks|
  {
    if ks != [] {
      var sh := ShardAt(c, s, ks[0]);
      var s' := DeleteFrom(c, s, ks[0]);
      RecordLedger(c, s, ks[0], DeleteOp, Get(sh.marks, ks[0]) + 1, Delete(sh, ks[0], Mode.WriteBack), s');
      DeleteKeysLedger(c, s', ks[1..]);
    }
  }

  /** Nothing was entered. */
  lemma SameLedger(s: State, s': State)
    requires Ledger(s) && s'.log == s.log && s'.jobs == s.jobs && s'.applied == s.applied && s'.lost == s.lost
    ensures Ledger(s')
  {
    forall k ensures Fated(s', k) {
      assert Fated(s, k);
    }
  }

  lemma ClientLedger(c: Config, s: State, step: Step, s': State)
    requires Ledger(s) && Takes(c, s, step, s') && !Internal(step)
    ensures Ledger(s')
  {
    if step.PutStep? {
      var sh := ShardAt(c, s, step.key);
      RecordLedger(c, s, step.key, PutOp(step.value), PutVersion(sh, step.key, step.now),
                   Put(sh, step.key, step.value, step.ttl, step.now, Mode.WriteBack, c.defaultTtl), s');
    } else if step.DeleteStep? {
      var sh := ShardAt(c, s, step.key);
      RecordLedger(c, s, step.key, DeleteOp, Get(sh.marks, step.key) + 1,
                   Delete(sh, step.key, Mode.WriteBack), s');
    } else if step.ClearStep? {
      DeleteKeysLedger(c, s, s.shards[step.shard].order);
      SameLedger(DeleteKeys(c, s, s.shards[step.shard].order), s');
    } else {
      SameLedger(s, s');
    }
  }

  /** A job moves, possibly into the source. */
  lemma MoveLedger(s: State, s': State, id: nat, job: Job)
    requires Ledger(s) && id in s.jobs && s'.log == s.log && s'.jobs == s.jobs[id := job] && s'.lost == s.lost
    requires s'.applied == if job.place.Applied? then s.applied + {id} else s.applied
    requires s.jobs[id].place.Applied? ==> job.place.Applied?
    ensures Ledger(s')
  {
    forall k ensures Fated(s', k) {
      assert Fated(s, k);
    }
  }

  /** A job ends: lost, or applied, or superseded. */
  lemma EndLedger(s: State, s': State, id: nat)
    requires Ledger(s) && id in s.jobs && s'.log == s.log && s'.jobs == s.jobs - {id} && s'.applied == s.applied
    requires (s'.lost == s.lost + {id} && !s.jobs[id].place.Applied?)
             || (s'.lost == s.lost && (s.jobs[id].place.Applied? || forall k :: Last(s.log, k) != Some(id)))
    ensures Ledger(s')
  {
    forall k ensures Fated(s', k) {
      assert Fated(s, k);
    }
  }

  lemma JobLedger(c: Config, s: State, step: Step, s': State)
    requires Inv(c, s) && Ledger(s) && Takes(c, s, step, s') && Internal(step)
    ensures Ledger(s')
  {
    match step
    case TakeStep(_) => MoveLedger(s, s', s.queue[0], s'.jobs[s.queue[0]]);
    case EnqueueStep(id) => MoveLedger(s, s', id, s'.jobs[id]);
    case RetryStep(id) => MoveLedger(s, s', id, s'.jobs[id]);
    case PassStep(id) => MoveLedger(s, s', id, s'.jobs[id]);
    case ApplyStep(id) => MoveLedger(s, s', id, s'.jobs[id]);
    case SkipStep(id) => SkipLedger(c, s, id, s');
    case RejectStep(id) => EndLedger(s, s', id);
    case RetryDroppedStep(id) => EndLedger(s, s', id);
    case GiveUpStep(id) => EndLedger(s, s', id);
    case FinishStep(id) => EndLedger(s, s', id);
  }

  lemma SkipLedger(c: Config, s: State, id: nat, s': State)
    requires Inv(c, s) && Ledger(s) && Takes(c, s, SkipStep(id), s')
    ensures Ledger(s')
  {
    StaleIffLater(c, s, id);
    forall k ensures Last(s.log, k) != Some(id) {
      assert Last(s.log, s.jobs[id].key) != Some(id) && s.jobs[id].key == s.log[id].key;
    }
    EndLedger(s, s', id);
  }

  ghost function SafeLedger(c: Config): State -> bool {
    s => Inv(c, s) && Ledger(s)
  }

  lemma HistoryLedger(c: Config, source: map<Key, Value>, r: Run<State, Step>)
    requires History(c, source, r)
    ensures Ledger(Final(r))
  {
    forall s, step, s' | SafeLedger(c)(s) && GentleSteps(c)(s, step, s') ensures SafeLedger(c)(s') {
      StepInv(c, s, step);
      if Internal(step) { JobLedger(c, s, step, s'); } else { ClientLedger(c, s, step, s'); }
    }
    InitInv(c, source);
    Invariance(GentleSteps(c), SafeLedger(c), r, |r.steps|);
  }

  // ---------------------------------------------------------------- what a lost write leaves

  /**
    Once the newest write of a key is lost and no flush of the key is outstanding, a delete has
    left no tombstone, so that nothing will repeat it; a put has left something to flush exactly
    as long as its entry is still cached.
   */
  lemma LostWriteLeaves(c: Config, source: map<Key, Value>, r: Run<State, Step>, k: Key)
    requires History(c, source, r) && Last(Final(r).log, k).Some? && Last(Final(r).log, k).value in Final(r).lost
    requires forall id :: id in Final(r).jobs ==> Final(r).jobs[id].key != k
    ensures var s := Final(r);
            var sh := ShardAt(c, s, k);
            && k !in sh.tombs
            && (s.log[Last(s.log, k).value].op.DeleteOp? ==> k !in sh.entries)
            && (k in sh.entries ==> sh.entries[k].dirty && s.log[Last(s.log, k).value].op == PutOp(sh.entries[k].value))
  {
    HistoryInv(c, source, r);
    HistoryLedger(c, source, r);
    var s := Final(r);
    assert KeyInv(CellAt(c, s, k), k, s);
    assert Out(s.jobs, k) == {};
  }
}
