/** The flush queue is first in, first out, and never longer than configured. */
module QueueOrder {
  import opened Prelude
  import opened Runs
  import opened WriteBack

  /** The jobs that entered the queue in the first `n` steps, in order: when enqueued, and again with each retry. */
  function Entered(steps: seq<Step>, n: nat): seq<nat>
    requires n <= |steps|
  {
    if n == 0 then []
    else
      match steps[n - 1]
      case EnqueueStep(id) => Entered(steps, n - 1) + [id]
      case RetryStep(id) => Entered(steps, n - 1) + [id]
      case _ => Entered(steps, n - 1)
  }

  /** How many jobs were taken in the first `n` steps. */
  function Takings(steps: seq<Step>, n: nat): nat
    requires n <= |steps|
  {
    if n == 0 then 0 else Takings(steps, n - 1) + if steps[n - 1].TakeStep? then 1 else 0
  }

  lemma SameQueue(c: Config, s: State, step: Step, s': State)
    requires Takes(c, s, step, s')
    ensures s'.queue ==
              match step
              case EnqueueStep(id) => s.queue + [id]
              case RetryStep(id) => s.queue + [id]
              case TakeStep(_) => if s.queue == [] then [] else s.queue[1..]
              case _ => s.queue
  {
    if step.ClearStep? { DeleteKeysQueue(c, s, s.shards[step.shard].order); }
  }

  lemma {:induction false} DeleteKeysQueue(c: Config, s: State, ks: seq<Key>)
    requires Shaped(c, s)
    ensures DeleteKeys(c, s, ks).queue == s.queue
    decreases |ks|
  {
    if ks != [] { DeleteKeysQueue(c, DeleteFrom(c, s, ks[0]), ks[1..]); }
  }

  /** `queue` is what is left of `entered` when the first `taken` jobs are out. */
  ghost predicate Remains(entered: seq<nat>, taken: nat, queue: seq<nat>) {
    taken <= |entered| && queue == entered[taken..]
  }

  lemma RemainsNext(c: Config, s: State, step: Step, s': State, entered: seq<nat>, taken: nat, entered': seq<nat>)
    requires Takes(c, s, step, s') && Remains(entered, taken, s.queue)
    requires entered' == if step.EnqueueStep? || step.RetryStep? then entered + [step.id] else entered
    ensures Remains(entered', taken + if step.TakeStep? then 1 else 0, s'.queue)
    ensures step.TakeStep? ==> taken < |entered| && At(s', entered[taken], Taken(step.worker))
  {
    SameQueue(c, s, step, s');
  }

  lemma {:induction false} QueueRemains(c: Config, source: map<Key, Value>, r: Run<State, Step>, n: nat)
    requires Execution(c, source, r) && n <= |r.steps|
    ensures Remains(Entered(r.steps, n), Takings(r.steps, n), r.states[n].queue)
  {
    if n > 0 {
      var m := n - 1;
      QueueRemains(c, source, r, m);
      assert Steps(c)(r.states[m], r.steps[m], r.states[m + 1]);
      RemainsNext(c, r.states[m], r.steps[m], r.states[m + 1], Entered(r.steps, m), Takings(r.steps, m),
                  Entered(r.steps, n));
    }
  }

  /** The worker that takes number `j` gets the job that entered the queue as number `j`. */
  lemma FirstInFirstOut(c: Config, source: map<Key, Value>, r: Run<State, Step>, n: nat)
    requires Execution(c, source, r) && n < |r.steps| && r.steps[n].TakeStep?
    ensures Takings(r.steps, n) < |Entered(r.steps, n)|
    ensures At(r.states[n + 1], Entered(r.steps, n)[Takings(r.steps, n)], Taken(r.steps[n].worker))
  {
    QueueRemains(c, source, r, n);
    assert Steps(c)(r.states[n], r.steps[n], r.states[n + 1]);
    RemainsNext(c, r.states[n], r.steps[n], r.states[n + 1], Entered(r.steps, n), Takings(r.steps, n),
                Entered(r.steps, n));
  }

  ghost predicate Fits(c: Config, s: State) {
    c.queueSize > 0 ==> |s.queue| <= c.queueSize
  }

  ghost function Fitting(c: Config): State -> bool {
    s => Fits(c, s)
  }

  /** A bounded queue never holds more jobs than its size. */
  lemma QueueIsBounded(c: Config, source: map<Key, Value>, r: Run<State, Step>)
    requires Execution(c, source, r) && c.queueSize > 0
    ensures |Final(r).queue| <= c.queueSize
  {
    forall s, step, s' | Fits(c, s) && Steps(c)(s, step, s') ensures Fits(c, s') {
      SameQueue(c, s, step, s');
    }
    Invariance(Steps(c), Fitting(c), r, |r.steps|);
  }
}
