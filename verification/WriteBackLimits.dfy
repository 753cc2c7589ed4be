/** Where convergence ends: two workers, of which one is slow between its stale check and its source call. */
module WriteBackLimits {
  import opened Prelude
  import opened Shards
  import opened Runs
  import opened WriteBack
  import opened WriteBackInvariant
  import opened WriteBackSafety
  import opened WriteBackConvergence
  import opened WriteBackTheorems
  import opened WriteBackAccounts

  // ---------------------------------------------------------------- two workers

  lemma PutNext(c: Config, source: map<Key, Value>, r: Run<State, Step>, k: Key, v: Value)
    returns (r': Run<State, Step>)
    requires Execution(c, source, r)
    ensures Execution(c, source, r')
    ensures var s := Final(r);
            var s' := Final(r');
            var id := |s.log|;
            && s' == s.(shards := s'.shards, log := s.log + [Write(k, PutOp(v))], jobs := s'.jobs)
            && id in s'.jobs && s'.jobs == s.jobs[id := s'.jobs[id]]
            && s'.jobs[id].key == k && s'.jobs[id].op == PutOp(v) && s'.jobs[id].place == Created
  {
    r' := Extend(c, source, r, PutStep(k, v, NoExpiry, 0.0));
  }

  lemma EnqueueNext(c: Config, source: map<Key, Value>, r: Run<State, Step>, id: nat) returns (r': Run<State, Step>)
    requires Execution(c, source, r) && Final(r).queue == [] && At(Final(r), id, Created)
    ensures Execution(c, source, r')
    ensures var s := Final(r);
            Final(r') == s.(jobs := s.jobs[id := s.jobs[id].(place := Queued)], queue := [id])
  {
    r' := Extend(c, source, r, EnqueueStep(id));
  }

  lemma TakeNext(c: Config, source: map<Key, Value>, r: Run<State, Step>, id: nat, w: nat)
    returns (r': Run<State, Step>)
    requires Execution(c, source, r) && w < c.workers
    requires Final(r).queue == [id] && At(Final(r), id, Queued)
    requires forall i :: i in Final(r).jobs && Held(Final(r).jobs[i].place) ==> Final(r).jobs[i].place.worker != w
    ensures Execution(c, source, r')
    ensures var s := Final(r);
            Final(r') == s.(jobs := s.jobs[id := s.jobs[id].(place := Taken(w))], queue := [])
  {
    r' := Extend(c, source, r, TakeStep(w));
  }

  lemma PassNext(c: Config, source: map<Key, Value>, r: Run<State, Step>, id: nat, w: nat)
    returns (r': Run<State, Step>)
    requires Execution(c, source, r) && At(Final(r), id, Taken(w)) && !Stale(c, Final(r), Final(r).jobs[id])
    ensures Execution(c, source, r')
    ensures var s := Final(r);
            Final(r') == s.(jobs := s.jobs[id := s.jobs[id].(place := Passed(w))])
  {
    r' := Extend(c, source, r, PassStep(id));
  }

  lemma NewestIsFresh(c: Config, source: map<Key, Value>, r: Run<State, Step>, id: nat)
    requires Execution(c, source, r) && Spares(c)
    requires id in Final(r).jobs && Last(Final(r).log, Final(r).jobs[id].key) == Some(id)
    ensures !Stale(c, Final(r), Final(r).jobs[id])
  {
    SparingExecutionIsAHistory(c, source, r);
    HistoryInv(c, source, r);
    StaleIffLater(c, Final(r), id);
  }

  /** Worker `w` brings a new put of `k` through its stale check. */
  lemma PutAndPass(c: Config, source: map<Key, Value>, r: Run<State, Step>, k: Key, v: Value, w: nat)
    returns (r': Run<State, Step>)
    requires Execution(c, source, r) && Spares(c) && Final(r).queue == [] && w < c.workers
    requires forall i :: i in Final(r).jobs ==>
               i < |Final(r).log| && (Held(Final(r).jobs[i].place) ==> Final(r).jobs[i].place.worker != w)
    ensures Execution(c, source, r')
    ensures var s := Final(r);
            var s' := Final(r');
            var id := |s.log|;
            && s' == s.(shards := s'.shards, log := s.log + [Write(k, PutOp(v))], jobs := s'.jobs)
            && id in s'.jobs && s'.jobs == s.jobs[id := s'.jobs[id]]
            && s'.jobs[id].key == k && s'.jobs[id].op == PutOp(v) && s'.jobs[id].place == Passed(w)
  {
    var id := |Final(r).log|;
    LastAppend(Final(r).log, Write(k, PutOp(v)));
    r' := PutNext(c, source, r, k, v);
    r' := EnqueueNext(c, source, r', id);
    r' := TakeNext(c, source, r', id, w);
    NewestIsFresh(c, source, r', id);
    r' := PassNext(c, source, r', id, w);
  }

  lemma ApplyFinish(c: Config, source: map<Key, Value>, r: Run<State, Step>, id: nat) returns (r': Run<State, Step>)
    requires Execution(c, source, r) && id in Final(r).jobs && Final(r).jobs[id].place.Passed?
    ensures Execution(c, source, r')
    ensures var s := Final(r);
            var s' := Final(r');
            var job := s.jobs[id];
            s' == s.(shards := s.shards[c.route(job.key) := Resolve(CleanedBy(ShardAt(c, s, job.key), job), job.key)],
                     jobs := s.jobs - {id},
                     source := ApplyOp(s.source, job.key, job.op),
                     applied := s.applied + {id},
                     counts := s'.counts)
  {
    var r1 := Extend(c, source, r, ApplyStep(id));
    r' := Extend(c, source, r1, FinishStep(id));
  }

  /**
    With two workers an older job that has passed its stale check can land after a newer one:
    the key has no outstanding flush, nothing was given up, and the source holds the old value.
   */
  lemma TwoWorkersDiverge(c: Config, source: map<Key, Value>, k: Key, a: Value, b: Value) returns (r: Run<State, Step>)
    requires ValidConfig(c) && Spares(c) && c.workers >= 2 && a != b
    ensures Execution(c, source, r)
    ensures var s := Final(r);
            && Quiescent(s, k)
            && s.log == [Write(k, PutOp(a)), Write(k, PutOp(b))]
            && s.source == source[k := b][k := a]
            && !Reflects(s.source, s.log[Last(s.log, k).value])
  {
    r := PutAndPass(c, source, Run([Init(c, source)], []), k, a, 0);
    r := PutAndPass(c, source, r, k, b, 1);
    r := ApplyFinish(c, source, r, 1);
    r := ApplyFinish(c, source, r, 0);
  }

  /** Every quiescent key is reflected in the source, after every execution of the configuration. */
  ghost predicate AlwaysConverges(c: Config) {
    forall source, r, k {:trigger Execution(c, source, r), Quiescent(Final(r), k)} ::
      Execution(c, source, r) && Quiescent(Final(r), k)
      ==> Reflects(Final(r).source, Final(r).log[Last(Final(r).log, k).value])
  }
}
