/** How often a write-back job is tried before it is given up. */
module Retries {
  import opened Prelude
  import opened Shards
  import opened Runs
  import opened WriteBack

  /** `failures` tries of job `id` have failed so far; a job that does not exist yet has failed never. */
  ghost predicate Tried(c: Config, s: State, id: nat, failures: nat) {
    && (id in s.jobs ==>
          && id < |s.log| && s.jobs[id].attempt == failures && s.jobs[id].attempt + s.jobs[id].retriesLeft == c.retries)
    && (id >= |s.log| ==> failures == 0)
  }

  function FailsAgain(step: Step, id: nat): nat {
    if step == RetryStep(id) then 1 else 0
  }

  lemma RecordTried(c: Config, s: State, k: Key, op: Op, version: nat, sh: Shard, id: nat, failures: nat)
    requires Shaped(c, s) && Tried(c, s, id, failures)
    ensures Tried(c, Record(c, s, k, op, version, sh), id, failures)
  {
  }

  lemma {:induction false} DeleteKeysTried(c: Config, s: State, ks: seq<Key>, id: nat, failures: nat)
    requires Shaped(c, s) && Tried(c, s, id, failures)
    ensures Tried(c, DeleteKeys(c, s, ks), id, failures)
    decreases |ks|
  {
    if ks != [] {
      var sh := ShardAt(c, s, ks[0]);
      RecordTried(c, s, ks[0], DeleteOp, Get(sh.marks, ks[0]) + 1, Delete(sh, ks[0], Mode.WriteBack), id, failures);
      DeleteKeysTried(c, DeleteFrom(c, s, ks[0]), ks[1..], id, failures);
    }
  }

  lemma ClientTried(c: Config, s: State, step: Step, s': State, id: nat, failures: nat)
    requires Takes(c, s, step, s') && !Internal(step) && Tried(c, s, id, failures)
    ensures Tried(c, s', id, failures)
  {
    if step.PutStep? {
      var sh := ShardAt(c, s, step.key);
      RecordTried(c, s, step.key, PutOp(step.value), PutVersion(sh, step.key, step.now),
                  Put(sh, step.key, step.value, step.ttl, step.now, Mode.WriteBack, c.defaultTtl), id, failures);
    } else if step.DeleteStep? {
      var sh := ShardAt(c, s, step.key);
      RecordTried(c, s, step.key, DeleteOp, Get(sh.marks, step.key) + 1,
                  Delete(sh, step.key, Mode.WriteBack), id, failures);
    } else if step.ClearStep? {
      DeleteKeysTried(c, s, s.shards[step.shard].order, id, failures);
    }
  }

  lemma JobTried(c: Config, s: State, step: Step, s': State, id: nat, failures: nat)
    requires Takes(c, s, step, s') && Internal(step) && Tried(c, s, id, failures)
    ensures Tried(c, s', id, failures + FailsAgain(step, id))
  {
  }

  function Failures(id: nat): Step -> bool {
    step => step == RetryStep(id)
  }

  lemma TriedStep(c: Config, s: State, step: Step, s': State, id: nat, failures: nat)
    requires Takes(c, s, step, s') && Tried(c, s, id, failures)
    ensures Tried(c, s', id, failures + FailsAgain(step, id))
  {
    if Internal(step) { JobTried(c, s, step, s', id, failures); } else { ClientTried(c, s, step, s', id, failures); }
  }

  lemma TriedNext(c: Config, r: Run<State, Step>, id: nat, n: nat)
    requires n < |r.steps| < |r.states| && Takes(c, r.states[n], r.steps[n], r.states[n + 1])
    requires Tried(c, r.states[n], id, Count(Failures(id), r.steps, n))
    ensures Tried(c, r.states[n + 1], id, Count(Failures(id), r.steps, n + 1))
  {
    var failures := Count(Failures(id), r.steps, n);
    TriedStep(c, r.states[n], r.steps[n], r.states[n + 1], id, failures);
    assert Count(Failures(id), r.steps, n + 1) == failures + FailsAgain(r.steps[n], id);
  }

  lemma {:induction false} AlwaysTried(c: Config, source: map<Key, Value>, r: Run<State, Step>, id: nat, n: nat)
    requires Execution(c, source, r) && n <= |r.steps|
    ensures Tried(c, r.states[n], id, Count(Failures(id), r.steps, n))
  {
    if n > 0 {
      var m := n - 1;
      AlwaysTried(c, source, r, id, m);
      assert Steps(c)(r.states[m], r.steps[m], r.states[m + 1]);
      TriedNext(c, r, id, m);
    }
  }

  /** The attempt a job is at counts its failed tries, and what it has left makes up the configured retries. */
  lemma AttemptsAreFailures(c: Config, source: map<Key, Value>, r: Run<State, Step>, id: nat)
    requires Execution(c, source, r) && id in Final(r).jobs
    ensures Final(r).jobs[id].attempt == Count(Failures(id), r.steps, |r.steps|)
    ensures Final(r).jobs[id].retriesLeft == c.retries - Count(Failures(id), r.steps, |r.steps|)
  {
    AlwaysTried(c, source, r, id, |r.steps|);
  }

  /**
    A job of any put, delete or clear that is given up for want of retries has failed
    `c.retries` times before: with the try that gives it up, `c.retries + 1` times in all.  A
    job whose retry is dropped by a full queue has failed at most that often.
   */
  lemma GivenUpAfterAllRetries(c: Config, source: map<Key, Value>, r: Run<State, Step>, id: nat, n: nat)
    requires Execution(c, source, r) && n < |r.steps|
    ensures r.steps[n] == GiveUpStep(id) ==> Count(Failures(id), r.steps, n) == c.retries
    ensures r.steps[n] == RetryDroppedStep(id) || r.steps[n] == RetryStep(id) ==>
              Count(Failures(id), r.steps, n) < c.retries
  {
    AlwaysTried(c, source, r, id, n);
    assert Steps(c)(r.states[n], r.steps[n], r.states[n + 1]);
    EnabledTries(c, r.states[n], r.steps[n], id, Count(Failures(id), r.steps, n));
  }

  lemma EnabledTries(c: Config, s: State, step: Step, id: nat, failures: nat)
    requires Shaped(c, s) && Enabled(c, s, step) && Tried(c, s, id, failures)
    ensures step == GiveUpStep(id) ==> failures == c.retries
    ensures step == RetryDroppedStep(id) || step == RetryStep(id) ==> failures < c.retries
  {
  }
}
