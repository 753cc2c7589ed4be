/** What the source of a write-back cache holds, with any number of workers: what was applied to it last. */
module Applications {
  import opened Prelude
  import opened Shards
  import opened Runs
  import opened WriteBack

  /** Every outstanding job is the job of its log entry. */
  ghost predicate JobsMatch(s: State) {
    forall id :: id in s.jobs ==> id < |s.log| && s.log[id] == Write(s.jobs[id].key, s.jobs[id].op)
  }

  lemma {:induction false} DeleteKeysMatch(c: Config, s: State, ks: seq<Key>)
    requires Shaped(c, s) && JobsMatch(s)
    ensures JobsMatch(DeleteKeys(c, s, ks)) && DeleteKeys(c, s, ks).source == s.source
    decreases |ks|
  {
    if ks != [] { DeleteKeysMatch(c, DeleteFrom(c, s, ks[0]), ks[1..]); }
  }

  lemma ClientMatch(c: Config, s: State, step: Step, s': State)
    requires JobsMatch(s) && Takes(c, s, step, s') && !Internal(step)
    ensures JobsMatch(s') && s'.source == s.source
  {
    if step.ClearStep? { DeleteKeysMatch(c, s, s.shards[step.shard].order); }
  }

  lemma JobMatch(c: Config, s: State, step: Step, s': State)
    requires JobsMatch(s) && Takes(c, s, step, s') && Internal(step)
    ensures JobsMatch(s')
    ensures s'.source == if step.ApplyStep? then ApplyOp(s.source, s.log[step.id].key, s.log[step.id].op) else s.source
  {
    KeptJobs(c, s, step, s');
  }

  lemma KeptJobs(c: Config, s: State, step: Step, s': State)
    requires Takes(c, s, step, s') && Internal(step)
    ensures s'.log == s.log
    ensures forall id :: id in s'.jobs ==>
              id in s.jobs && s'.jobs[id].key == s.jobs[id].key && s'.jobs[id].op == s.jobs[id].op
  {
  }

  lemma StepMatch(c: Config, s: State, step: Step, s': State)
    requires JobsMatch(s) && Takes(c, s, step, s')
    ensures JobsMatch(s')
    ensures s'.source == if step.ApplyStep? then ApplyOp(s.source, s.log[step.id].key, s.log[step.id].op) else s.source
  {
    if Internal(step) { JobMatch(c, s, step, s'); } else { ClientMatch(c, s, step, s'); }
  }

  ghost function Matching(): State -> bool {
    s => JobsMatch(s)
  }

  lemma MatchAt(c: Config, source: map<Key, Value>, r: Run<State, Step>, n: nat)
    requires Execution(c, source, r) && n <= |r.steps|
    ensures JobsMatch(r.states[n])
  {
    forall s, step, s' | JobsMatch(s) && Steps(c)(s, step, s') ensures JobsMatch(s') {
      StepMatch(c, s, step, s');
    }
    Invariance(Steps(c), Matching(), r, n);
  }

  function Held(source: map<Key, Value>, k: Key): Option<Value> {
    if k in source then Some(source[k]) else None
  }

  /** What a write asks the source to hold. */
  function Wanted(op: Op): Option<Value> {
    match op
    case PutOp(v) => Some(v)
    case DeleteOp => None
  }

  /** Step `n` applies a write of `k` to the source. */
  predicate Applies(s: State, step: Step, k: Key) {
    step.ApplyStep? && step.id < |s.log| && s.log[step.id].key == k
  }

  ghost predicate SourceStep(s: State, step: Step, s': State, k: Key) {
    Held(s'.source, k) == if Applies(s, step, k) then Wanted(s.log[step.id].op) else Held(s.source, k)
  }

  lemma SourceSteps(c: Config, source: map<Key, Value>, r: Run<State, Step>, n: nat, k: Key)
    requires Execution(c, source, r) && n < |r.steps|
    ensures SourceStep(r.states[n], r.steps[n], r.states[n + 1], k)
  {
    MatchAt(c, source, r, n);
    assert Steps(c)(r.states[n], r.steps[n], r.states[n + 1]);
    StepMatch(c, r.states[n], r.steps[n], r.states[n + 1]);
  }

  ghost predicate Chain(r: Run<State, Step>, k: Key) {
    && |r.states| == |r.steps| + 1
    && forall n :: 0 <= n < |r.steps| ==> SourceStep(r.states[n], r.steps[n], r.states[n + 1], k)
  }

  lemma {:induction false} SameSince(r: Run<State, Step>, k: Key, n: nat, m: nat)
    requires Chain(r, k) && n <= m <= |r.steps|
    requires forall j :: n <= j < m ==> !Applies(r.states[j], r.steps[j], k)
    ensures Held(r.states[m].source, k) == Held(r.states[n].source, k)
    decreases m
  {
    if n < m {
      SameSince(r, k, n, m - 1);
      assert SourceStep(r.states[m - 1], r.steps[m - 1], r.states[m - 1 + 1], k);
    }
  }

  lemma ExecutionChain(c: Config, source: map<Key, Value>, r: Run<State, Step>, k: Key)
    requires Execution(c, source, r)
    ensures Chain(r, k)
  {
    forall n | 0 <= n < |r.steps| ensures SourceStep(r.states[n], r.steps[n], r.states[n + 1], k) {
      SourceSteps(c, source, r, n, k);
    }
  }

  /**
    In every execution the write of `k` that was applied last decides what the source holds of
    `k`; applying a write touches no other key.
   */
  lemma LastAppliedDecides(c: Config, source: map<Key, Value>, r: Run<State, Step>, k: Key, n: nat)
    requires Execution(c, source, r) && n < |r.steps| && Applies(r.states[n], r.steps[n], k)
    requires forall j :: n < j < |r.steps| ==> !Applies(r.states[j], r.steps[j], k)
    ensures Held(Final(r).source, k) == Wanted(r.states[n].log[r.steps[n].id].op)
  {
    ExecutionChain(c, source, r, k);
    assert SourceStep(r.states[n], r.steps[n], r.states[n + 1], k);
    SameSince(r, k, n + 1, |r.steps|);
  }

  /** A key to which nothing was applied is as the source had it at first. */
  lemma UnappliedKeyStays(c: Config, source: map<Key, Value>, r: Run<State, Step>, k: Key)
    requires Execution(c, source, r)
    requires forall j :: 0 <= j < |r.steps| ==> !Applies(r.states[j], r.steps[j], k)
    ensures Held(Final(r).source, k) == Held(source, k)
  {
    ExecutionChain(c, source, r, k);
    SameSince(r, k, 0, |r.steps|);
  }
}
