/** The tries of a job before and during a close with running workers, those of close's own jobs included. */
module ClosingRetries {
  import opened Prelude
  import opened Runs
  import opened WriteBack
  import opened Closing
  import opened Retries

  /** As `Tried`; the jobs of close are numbered after the log. */
  ghost predicate TriedSince(c: Config, q: Closing, id: nat, failures: nat) {
    && (id in q.s.jobs ==>
          && id < |q.s.log| + |q.seconds|
          && q.s.jobs[id].attempt == failures && q.s.jobs[id].attempt + q.s.jobs[id].retriesLeft == c.retries)
    && (id >= |q.s.log| + |q.seconds| ==> failures == 0)
    && (forall other :: other in q.seconds ==> other < |q.s.log| + |q.seconds|)
  }

  function RetriedBy(id: nat): Act -> bool {
    act => act == Work(RetryStep(id))
  }

  function RetriedNow(act: Act, id: nat): nat {
    if act == Work(RetryStep(id)) then 1 else 0
  }

  lemma OneMore(m: map<nat, Key>, id: nat, k: Key)
    requires id !in m
    ensures |m[id := k]| == |m| + 1
  {
    assert m[id := k].Keys == m.Keys + {id};
    assert |m[id := k]| == |m[id := k].Keys| && |m| == |m.Keys|;
  }

  /** Close adds one job, with all its retries, under the next number. */
  lemma SecondJobs(c: Config, q: Closing, k: Key, q': Closing) returns (job: Job)
    requires Moves(c, q, Second(k), q')
    ensures q'.s.log == q.s.log && q'.seconds == q.seconds[|q.s.log| + |q.seconds| := k]
    ensures job.attempt == 0 && job.retriesLeft == c.retries
    ensures q'.s.jobs == q.s.jobs[|q.s.log| + |q.seconds| := job]
  {
    job := SecondJob(c, ShardAt(c, q.s, k), k);
  }

  lemma SecondTried(c: Config, q: Closing, k: Key, q': Closing, id: nat, failures: nat)
    requires Moves(c, q, Second(k), q') && TriedSince(c, q, id, failures)
    ensures TriedSince(c, q', id, failures)
  {
    var job := SecondJobs(c, q, k, q');
    OneMore(q.seconds, |q.s.log| + |q.seconds|, k);
    AddedTried(c, q, k, job, q', id, failures);
  }

  lemma AddedTried(c: Config, q: Closing, k: Key, job: Job, q': Closing, id: nat, failures: nat)
    requires TriedSince(c, q, id, failures) && q'.s.log == q.s.log && |q'.seconds| == |q.seconds| + 1
    requires q'.seconds == q.seconds[|q.s.log| + |q.seconds| := k]
    requires job.attempt == 0 && job.retriesLeft == c.retries
    requires q'.s.jobs == q.s.jobs[|q.s.log| + |q.seconds| := job]
    ensures TriedSince(c, q', id, failures)
  {
  }

  lemma WorkTried(c: Config, q: Closing, step: Step, q': Closing, id: nat, failures: nat)
    requires Moves(c, q, Work(step), q') && TriedSince(c, q, id, failures)
    ensures TriedSince(c, q', id, failures + FailsAgain(step, id))
  {
    WorkJobs(c, q.s, step, q'.s, id);
  }

  /** What a step of queue, workers or expiry does to a job that is still there. */
  lemma WorkJobs(c: Config, s: State, step: Step, s': State, id: nat)
    requires Takes(c, s, step, s') && Goes(step)
    ensures s'.log == s.log
    ensures id in s'.jobs ==>
              && id in s.jobs && s'.jobs[id].attempt == s.jobs[id].attempt + FailsAgain(step, id)
              && s'.jobs[id].retriesLeft == s.jobs[id].retriesLeft - FailsAgain(step, id)
    ensures step == RetryStep(id) ==> id in s.jobs
  {
  }

  lemma MoveTried(c: Config, q: Closing, act: Act, q': Closing, id: nat, failures: nat)
    requires Moves(c, q, act, q') && TriedSince(c, q, id, failures)
    ensures TriedSince(c, q', id, failures + RetriedNow(act, id))
  {
    match act
    case Second(k) => SecondTried(c, q, k, q', id, failures);
    case Work(step) => WorkTried(c, q, step, q', id, failures);
  }

  lemma TriedNow(c: Config, run: Run<Closing, Act>, id: nat, before: nat, n: nat)
    requires n < |run.steps| < |run.states| && Moves(c, run.states[n], run.steps[n], run.states[n + 1])
    requires TriedSince(c, run.states[n], id, before + Count(RetriedBy(id), run.steps, n))
    ensures TriedSince(c, run.states[n + 1], id, before + Count(RetriedBy(id), run.steps, n + 1))
  {
    var failures := before + Count(RetriedBy(id), run.steps, n);
    MoveTried(c, run.states[n], run.steps[n], run.states[n + 1], id, failures);
    assert before + Count(RetriedBy(id), run.steps, n + 1) == failures + RetriedNow(run.steps[n], id);
  }

  lemma {:induction false} TriedThroughout(c: Config, s: State, run: Run<Closing, Act>, id: nat, before: nat, n: nat)
    requires ClosingRun(c, s, run) && Tried(c, s, id, before) && n <= |run.steps|
    ensures TriedSince(c, run.states[n], id, before + Count(RetriedBy(id), run.steps, n))
  {
    if n > 0 {
      var m := n - 1;
      TriedThroughout(c, s, run, id, before, m);
      assert ClosingSteps(c)(run.states[m], run.steps[m], run.states[m + 1]);
      TriedNow(c, run, id, before, m);
    } else {
      TriedAtFirst(c, s, id, before);
      assert Count(RetriedBy(id), run.steps, 0) == 0;
    }
  }

  lemma TriedAtFirst(c: Config, s: State, id: nat, before: nat)
    requires Tried(c, s, id, before)
    ensures TriedSince(c, Closing(s, map[]), id, before)
  {
  }

  /**
    A job that gives up while close waits, whether a client's write or close itself made it,
    has failed `c.retries` times before, counted over the run and the close together.
   */
  lemma GivenUpWhileClosing(c: Config, source: map<Key, Value>, r: Run<State, Step>, run: Run<Closing, Act>, id: nat,
                            n: nat)
    requires Execution(c, source, r) && ClosingRun(c, Final(r), run) && n < |run.steps|
    requires run.steps[n] == Work(GiveUpStep(id))
    ensures Count(Failures(id), r.steps, |r.steps|) + Count(RetriedBy(id), run.steps, n) == c.retries
  {
    var before := Count(Failures(id), r.steps, |r.steps|);
    AlwaysTried(c, source, r, id, |r.steps|);
    TriedThroughout(c, Final(r), run, id, before, n);
    assert ClosingSteps(c)(run.states[n], run.steps[n], run.states[n + 1]);
    GivesUp(c, run.states[n], run.states[n + 1], id, before + Count(RetriedBy(id), run.steps, n));
  }

  lemma GivesUp(c: Config, q: Closing, q': Closing, id: nat, failures: nat)
    requires Moves(c, q, Work(GiveUpStep(id)), q') && TriedSince(c, q, id, failures)
    ensures failures == c.retries
  {
  }
}
