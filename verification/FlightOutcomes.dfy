/** Which outcome the members of a flight get: what the loader and the store of its leader did. */
module FlightOutcomes {
  import opened Prelude
  import opened Runs
  import opened SingleFlight

  /** Among the first `n` steps, the loader of `id` returned `v`. */
  ghost predicate Got(steps: seq<Step>, n: nat, id: nat, v: Value) {
    exists i :: 0 <= i < n <= |steps| && steps[i] == LoadOk(id, v)
  }

  /** Among the first `n` steps, the loader of `id` returned `v` and its put went through after that. */
  ghost predicate Succeeded(steps: seq<Step>, n: nat, id: nat, v: Value) {
    exists j :: 0 <= j < n <= |steps| && steps[j] == StoreOk(id) && Got(steps, j, id, v)
  }

  /** Among the first `n` steps, the loader of `id` or its put raised `e`. */
  ghost predicate Failed(steps: seq<Step>, n: nat, id: nat, e: nat) {
    exists i :: 0 <= i < n <= |steps| && (steps[i] == LoadFail(id, e) || steps[i] == StoreFail(id, e))
  }

  lemma GotNext(steps: seq<Step>, n: nat, id: nat, v: Value)
    requires n < |steps|
    ensures Got(steps, n + 1, id, v) <==> Got(steps, n, id, v) || steps[n] == LoadOk(id, v)
  {
    if Got(steps, n, id, v) {
      var i :| 0 <= i < n && steps[i] == LoadOk(id, v);
      assert 0 <= i < n + 1;
    }
  }

  lemma SucceededNext(steps: seq<Step>, n: nat, id: nat, v: Value)
    requires n < |steps|
    ensures Succeeded(steps, n + 1, id, v) <==>
              Succeeded(steps, n, id, v) || (steps[n] == StoreOk(id) && Got(steps, n, id, v))
  {
    if Succeeded(steps, n, id, v) {
      var j :| 0 <= j < n && steps[j] == StoreOk(id) && Got(steps, j, id, v);
      assert 0 <= j < n + 1;
    }
  }

  lemma FailedNext(steps: seq<Step>, n: nat, id: nat, e: nat)
    requires n < |steps|
    ensures Failed(steps, n + 1, id, e) <==>
              Failed(steps, n, id, e) || steps[n] == LoadFail(id, e) || steps[n] == StoreFail(id, e)
  {
    if Failed(steps, n, id, e) {
      var i :| 0 <= i < n && (steps[i] == LoadFail(id, e) || steps[i] == StoreFail(id, e));
      assert 0 <= i < n + 1;
    }
  }

  /** The outcome a caller has reached by its own steps, whether it has returned or not. */
  function Own(s: State, id: nat): Option<Outcome> {
    if id !in s.calls then None
    else
      match s.calls[id]
      case Publishing(_, v) => Some(Loaded(v))
      case Failing(_, e) => Some(Raised(e))
      case Returned(f, outcome) => if f < |s.flights| && s.flights[f].leader == id then Some(outcome) else None
      case _ => None
  }

  /** The steps of `id` so far tell where it is. */
  ghost predicate Story(steps: seq<Step>, n: nat, s: State, id: nat) {
    && (forall v :: Succeeded(steps, n, id, v) <==> Own(s, id) == Some(Loaded(v)))
    && (forall e :: Failed(steps, n, id, e) <==> Own(s, id) == Some(Raised(e)))
    && Fetched(steps, n, s, id)
  }

  ghost predicate Fetched(steps: seq<Step>, n: nat, s: State, id: nat) {
    && (id !in s.calls || s.calls[id].Loading? ==> forall v :: !Got(steps, n, id, v))
    && (id in s.calls && s.calls[id].Storing? ==> forall v :: Got(steps, n, id, v) <==> v == s.calls[id].value)
  }

  lemma OwnEnd(s: State, id: nat, outcome: Outcome, other: nat)
    requires Inv(s) && id in s.calls && Leads(s.calls[id]) && CallInv(s, id)
    ensures Own(End(s, id, outcome), other) == if other == id then Some(outcome) else Own(s, other)
  {
    if other in s.calls { assert CallInv(s, other); }
  }

  /** Only the put and the failures of `id` decide its outcome: ending the flight and waking do not. */
  lemma OwnNext(s: State, step: Step, s': State, id: nat)
    requires Inv(s) && Takes(s, step, s')
    ensures Own(s', id) ==
              if step == StoreOk(id) then Some(Loaded(s.calls[id].value))
              else if (step.LoadFail? || step.StoreFail?) && step.caller == id then Some(Raised(step.error))
              else Own(s, id)
  {
    if step.Publish? || step.Fail? {
      assert CallInv(s, step.caller);
      OwnEnd(s, step.caller, if step.Publish? then Loaded(s.calls[step.caller].value)
                             else Raised(s.calls[step.caller].error), id);
    } else if id in s.calls {
      assert CallInv(s, id);
      assert FlightInv(s, s.calls[id].flight);
    }
  }

  lemma UndecidedBefore(s: State, step: Step, id: nat)
    requires Enabled(s, step)
    requires step == StoreOk(id) || ((step.LoadFail? || step.StoreFail?) && step.caller == id)
    ensures Own(s, id) == None
  {
  }

  lemma SucceededStory(steps: seq<Step>, n: nat, s: State, s': State, id: nat, v: Value)
    requires n < |steps| && Inv(s) && Takes(s, steps[n], s') && Story(steps, n, s, id)
    ensures Succeeded(steps, n + 1, id, v) <==> Own(s', id) == Some(Loaded(v))
  {
    SucceededNext(steps, n, id, v);
    OwnNext(s, steps[n], s', id);
    if Own(s', id) != Own(s, id) { UndecidedBefore(s, steps[n], id); }
  }

  lemma FailedStory(steps: seq<Step>, n: nat, s: State, s': State, id: nat, e: nat)
    requires n < |steps| && Inv(s) && Takes(s, steps[n], s') && Story(steps, n, s, id)
    ensures Failed(steps, n + 1, id, e) <==> Own(s', id) == Some(Raised(e))
  {
    FailedNext(steps, n, id, e);
    OwnNext(s, steps[n], s', id);
    if Own(s', id) != Own(s, id) { UndecidedBefore(s, steps[n], id); }
  }

  lemma GotStory(steps: seq<Step>, n: nat, s: State, s': State, id: nat)
    requires n < |steps| && Takes(s, steps[n], s') && Story(steps, n, s, id)
    ensures Fetched(steps, n + 1, s', id)
  {
    forall v ensures Got(steps, n + 1, id, v) <==> Got(steps, n, id, v) || steps[n] == LoadOk(id, v) {
      GotNext(steps, n, id, v);
    }
  }

  lemma StoryNext(steps: seq<Step>, n: nat, s: State, s': State, id: nat)
    requires n < |steps| && Inv(s) && Takes(s, steps[n], s') && Story(steps, n, s, id)
    ensures Story(steps, n + 1, s', id)
  {
    forall v ensures Succeeded(steps, n + 1, id, v) <==> Own(s', id) == Some(Loaded(v)) {
      SucceededStory(steps, n, s, s', id, v);
    }
    forall e ensures Failed(steps, n + 1, id, e) <==> Own(s', id) == Some(Raised(e)) {
      FailedStory(steps, n, s, s', id, e);
    }
    GotStory(steps, n, s, s', id);
  }

  lemma {:induction false} AlwaysStory(r: Run<State, Step>, n: nat, id: nat)
    requires Execution(r) && n <= |r.steps|
    ensures Story(r.steps, n, r.states[n], id)
  {
    if n > 0 {
      AlwaysStory(r, n - 1, id);
      ExecutionInv(r, n - 1);
      assert Takes(r.states[n - 1], r.steps[n - 1], r.states[n - 1 + 1]);
      StoryNext(r.steps, n - 1, r.states[n - 1], r.states[n], id);
    }
  }

  /**
    A member of a flight returns a value exactly when the loader of the flight's leader
    returned it and the leader's put of it went through, and raises an error exactly when that
    loader or that put raised it.
   */
  lemma OutcomeIsTheLeaders(r: Run<State, Step>, id: nat)
    requires Execution(r) && id in Final(r).calls && Final(r).calls[id].Returned?
    ensures Final(r).calls[id].flight < |Final(r).flights|
    ensures var leader, outcome := Final(r).flights[Final(r).calls[id].flight].leader, Final(r).calls[id].outcome;
            && (forall v :: outcome == Loaded(v) <==> Succeeded(r.steps, |r.steps|, leader, v))
            && (forall e :: outcome == Raised(e) <==> Failed(r.steps, |r.steps|, leader, e))
  {
    var s := Final(r);
    ExecutionInv(r, |r.steps|);
    assert CallInv(s, id);
    var f := s.calls[id].flight;
    assert FlightInv(s, f);
    var leader := s.flights[f].leader;
    assert CallInv(s, leader);
    AlwaysStory(r, |r.steps|, leader);
  }
}
