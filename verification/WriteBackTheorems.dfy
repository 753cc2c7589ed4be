/** What the write-back protocol guarantees over whole runs. */
module WriteBackTheorems {
  import opened Prelude
  import opened Policies
  import opened Shards
  import opened Cells
  import opened Runs
  import opened Capacity
  import opened WriteBack
  import opened WriteBackInvariant
  import opened WriteBackSafety
  import opened WriteBackConvergence
  import opened Homes

  ghost function Safe(c: Config): State -> bool {
    s => Inv(c, s)
  }

  lemma InvIsInductive(c: Config)
    ensures Inductive(GentleSteps(c), Safe(c))
  {
    forall s, step, s' | Inv(c, s) && GentleSteps(c)(s, step, s') ensures Inv(c, s') {
      StepInv(c, s, step);
    }
  }

  lemma HistoryInv(c: Config, source: map<Key, Value>, r: Run<State, Step>)
    requires History(c, source, r)
    ensures Inv(c, Final(r))
  {
    InitInv(c, source);
    InvIsInductive(c);
    Invariance(GentleSteps(c), Safe(c), r, |r.steps|);
  }

  // ---------------------------------------------------------------- who is gentle

  /** One key more than shard `i` holds, all routed to it. */
  ghost predicate Crowds(c: Config, i: nat, ks: seq<Key>) {
    && i < c.shardCount && NoDup(ks) && |ks| == CapacityOf(c, i) + 1
    && forall k :: k in ks ==> c.route(k) == i
  }

  /** Some shard has more keys routed to it than it holds. */
  ghost predicate Crowded(c: Config) {
    exists i, ks :: Crowds(c, i, ks)
  }

  /** A configuration in which no put can evict its own key. */
  ghost predicate Spares(c: Config) {
    c.kind != LFU || !Crowded(c)
  }

  /** A put evicts its own key only when the shard is full of other keys. */
  lemma SelfEvictionCrowds(c: Config, s: State, k: Key, v: Value, ttl: TtlArg, now: real)
    requires Homed(c, s) && k !in Put(ShardAt(c, s, k), k, v, ttl, now, Mode.WriteBack, c.defaultTtl).entries
    ensures c.kind == LFU && Crowded(c)
  {
    var i, sh := c.route(k), ShardAt(c, s, k);
    assert Home(c, sh, i);
    SelfEvictionIff(sh, k, v, ttl, now, Mode.WriteBack, c.defaultTtl);
    forall j | j in sh.order ensures c.route(j) == i {
      assert CellOf(sh, j) != NOTHING;
    }
    NoDupSnoc(sh.order, k);
    assert Crowds(c, i, sh.order + [k]);
  }

  lemma SparingStepIsGentle(c: Config, s: State, step: Step)
    requires Homed(c, s) && Spares(c)
    ensures Gentle(c, s, step)
  {
    if step.PutStep? && !Gentle(c, s, step) {
      SelfEvictionCrowds(c, s, step.key, step.value, step.ttl, step.now);
    }
  }

  /**
    Every execution of such a configuration is a history, in particular every execution under
    LRU and FIFO: the theorems below need no further hypothesis there.
   */
  lemma SparingExecutionIsAHistory(c: Config, source: map<Key, Value>, r: Run<State, Step>)
    requires Execution(c, source, r) && Spares(c)
    ensures History(c, source, r)
  {
    forall s, step, s' | HomedIn(c)(s) && Steps(c)(s, step, s') ensures HomedIn(c)(s') && GentleSteps(c)(s, step, s') {
      StepHomed(c, s, step, s');
      SparingStepIsGentle(c, s, step);
    }
    Strengthen(Steps(c), HomedIn(c), GentleSteps(c), r);
  }

  // ---------------------------------------------------------------- any number of workers

  /** A job is stale exactly when a later put, delete or clear has hit its key. */
  lemma StalenessIsExact(c: Config, source: map<Key, Value>, r: Run<State, Step>, id: nat)
    requires History(c, source, r) && id in Final(r).jobs
    ensures var s := Final(r);
            && id < |s.log|
            && (Stale(c, s, s.jobs[id]) <==> exists i :: id < i < |s.log| && s.log[i].key == s.jobs[id].key)
  {
    HistoryInv(c, source, r);
    StaleIffLater(c, Final(r), id);
  }

  /** A key's version numbers never restart under an outstanding job. */
  lemma VersionsNeverRestart(c: Config, source: map<Key, Value>, r: Run<State, Step>, a: nat, b: nat)
    requires History(c, source, r)
    requires a in Final(r).jobs && b in Final(r).jobs && a < b
    requires Final(r).jobs[a].key == Final(r).jobs[b].key
    ensures Final(r).jobs[a].version < Final(r).jobs[b].version
            <= Get(ShardAt(c, Final(r), Final(r).jobs[b].key).marks,
                   Final(r).jobs[b].key)
  {
    HistoryInv(c, source, r);
    var s := Final(r);
    assert KeyInv(CellAt(c, s, s.jobs[b].key), s.jobs[b].key, s);
    assert b in Out(s.jobs, s.jobs[b].key);
  }

  /** The metadata maps stay consistent and never outgrow the live and the pending keys. */
  lemma MetadataIsConsistent(c: Config, source: map<Key, Value>, r: Run<State, Step>, k: Key)
    requires History(c, source, r)
    ensures var sh := ShardAt(c, Final(r), k);
            && (k in sh.entries ==> k in sh.marks && sh.entries[k].version == sh.marks[k] && k !in sh.tombs)
            && (k in sh.tombs ==>
                  && k in sh.marks && sh.tombs[k] == sh.marks[k]
                  && k !in sh.entries && Get(sh.pending, k) > 0)
            && (k in sh.marks <==> k in sh.entries || Get(sh.pending, k) > 0)
  {
    HistoryInv(c, source, r);
    assert KeyInv(CellAt(c, Final(r), k), k, Final(r));
  }

  /**
    A live entry always holds the newest write of its key.  If it is clean, that very write
    was applied to the source; if it is dirty, its job is outstanding or was given up.
   */
  lemma CleanMeansPersisted(c: Config, source: map<Key, Value>, r: Run<State, Step>, k: Key)
    requires History(c, source, r)
    requires k in ShardAt(c, Final(r), k).entries
    ensures var s := Final(r);
            var entry := ShardAt(c, s, k).entries[k];
            exists i ::
              && 0 <= i < |s.log| && s.log[i] == Write(k, PutOp(entry.value))
              && (forall j :: i < j < |s.log| ==> s.log[j].key != k)
              && (if entry.dirty then i in s.jobs || i in s.lost else i in s.applied)
  {
    HistoryInv(c, source, r);
    var s := Final(r);
    assert KeyInv(CellAt(c, s, k), k, s);
    var i := Last(s.log, k).value;
    assert s.log[i] == Write(k, PutOp(ShardAt(c, s, k).entries[k].value));
  }

  // ---------------------------------------------------------------- one worker

  ghost function SafeAndConverging(c: Config): State -> bool {
    s => Inv(c, s) && Converging(s)
  }

  lemma ConvergingIsInductive(c: Config)
    requires c.workers <= 1
    ensures Inductive(GentleSteps(c), SafeAndConverging(c))
  {
    forall s, step, s' | Inv(c, s) && Converging(s) && GentleSteps(c)(s, step, s')
      ensures Inv(c, s') && Converging(s')
    {
      StepInv(c, s, step);
      StepConverges(c, s, step);
    }
  }

  lemma HistoryConverges(c: Config, source: map<Key, Value>, r: Run<State, Step>)
    requires History(c, source, r) && c.workers <= 1
    ensures Converging(Final(r))
  {
    InitInv(c, source);
    ConvergingIsInductive(c);
    Invariance(GentleSteps(c), SafeAndConverging(c), r, |r.steps|);
  }

  /** No job of `k` is outstanding, and the job of its newest write was not given up. */
  ghost predicate Quiescent(s: State, k: Key) {
    && (forall id :: id in s.jobs ==> s.jobs[id].key != k)
    && Last(s.log, k).Some?
    && Last(s.log, k).value !in s.lost
  }

  lemma QuietKeyReflects(c: Config, s: State, k: Key)
    requires Inv(c, s) && Settling(s, k) && Quiescent(s, k)
    ensures Reflects(s.source, s.log[Last(s.log, k).value])
  {
  }

  /**
    With one worker, once a written key has no outstanding flush the source holds exactly its
    newest put value, or nothing if the newest write was a delete.
   */
  lemma OneWorkerConverges(c: Config, source: map<Key, Value>, r: Run<State, Step>, k: Key)
    requires History(c, source, r) && c.workers <= 1
    requires Quiescent(Final(r), k)
    ensures var s := Final(r);
            Reflects(s.source, s.log[Last(s.log, k).value])
  {
    HistoryInv(c, source, r);
    HistoryConverges(c, source, r);
    QuietKeyReflects(c, Final(r), k);
  }
}
