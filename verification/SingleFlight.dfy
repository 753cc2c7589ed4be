/**
  `get_or_compute` as a step system: one step per region under the shard lock, loaders and
  stores in between, any number of callers, and deletes or clears at any time.
 */
module SingleFlight {
  import opened Prelude
  import opened Runs

  datatype Outcome = Loaded(value: Value) | Raised(error: nat)

  /** `result` is set together with the event; `publishes` counts how often. */
  datatype Flight = Flight(key: Key, leader: nat, result: Option<Outcome>, publishes: nat)

  /** Where a caller that missed is. */
  datatype Call =
    | Loading(flight: nat)
    | Storing(flight: nat, value: Value)
    | Publishing(flight: nat, value: Value)
    | Failing(flight: nat, error: nat)
    | Waiting(flight: nat)
    | Returned(flight: nat, outcome: Outcome)

  /**
    `disturbed` is part of the ledger, not of the program: the keys that a delete or clear hit
    while a flight was up and whose flights have not all ended since.
   */
  datatype State = State(registry: map<Key, nat>, flights: seq<Flight>, calls: map<nat, Call>, disturbed: set<Key>)

  datatype Step =
    | Miss(caller: nat, key: Key)
    | LoadOk(caller: nat, value: Value)
    | LoadFail(caller: nat, error: nat)
    | StoreOk(caller: nat)
    | StoreFail(caller: nat, error: nat)
    | Publish(caller: nat)
    | Fail(caller: nat)
    | Wake(caller: nat)
    | Forget(keys: set<Key>)

  const INIT := State(map[], [], map[], {})

  predicate Leads(call: Call) {
    call.Loading? || call.Storing? || call.Publishing? || call.Failing?
  }

  /** `id` is in `get_or_compute` for `k` as leader of a flight it has not published. */
  predicate Active(s: State, id: nat, k: Key) {
    && id in s.calls && Leads(s.calls[id])
    && s.calls[id].flight < |s.flights| && s.flights[s.calls[id].flight].key == k
  }

  /** A leader's last region: the result is set, the slot popped by key, the waiters released. */
  function End(s: State, id: nat, outcome: Outcome): State
    requires id in s.calls && Leads(s.calls[id]) && s.calls[id].flight < |s.flights|
  {
    var f := s.calls[id].flight;
    var flight := s.flights[f];
    var s' := s.(
      registry := s.registry - {flight.key},
      flights := s.flights[f := flight.(result := Some(outcome), publishes := flight.publishes + 1)],
      calls := s.calls[id := Returned(f, outcome)]);
    if exists other :: other in s'.calls && Active(s', other, flight.key) then s'
    else s'.(disturbed := s.disturbed - {flight.key})
  }

  predicate Enabled(s: State, step: Step) {
    match step
    case Miss(id, _) => id !in s.calls
    case LoadOk(id, _) => id in s.calls && s.calls[id].Loading?
    case LoadFail(id, _) => id in s.calls && s.calls[id].Loading?
    case StoreOk(id) => id in s.calls && s.calls[id].Storing?
    case StoreFail(id, _) => id in s.calls && s.calls[id].Storing?
    case Publish(id) => id in s.calls && s.calls[id].Publishing? && s.calls[id].flight < |s.flights|
    case Fail(id) => id in s.calls && s.calls[id].Failing? && s.calls[id].flight < |s.flights|
    case Wake(id) =>
      && id in s.calls && s.calls[id].Waiting? && s.calls[id].flight < |s.flights|
      && s.flights[s.calls[id].flight].result.Some?
    case Forget(_) => true
  }

  function Do(s: State, step: Step): State
    requires Enabled(s, step)
  {
    match step
    case Miss(id, k) =>
      if k in s.registry then s.(calls := s.calls[id := Waiting(s.registry[k])])
      else s.(registry := s.registry[k := |s.flights|],
              flights := s.flights + [Flight(k, id, None, 0)],
              calls := s.calls[id := Loading(|s.flights|)])
    case LoadOk(id, v) => s.(calls := s.calls[id := Storing(s.calls[id].flight, v)])
    case LoadFail(id, e) => s.(calls := s.calls[id := Failing(s.calls[id].flight, e)])
    case StoreOk(id) => s.(calls := s.calls[id := Publishing(s.calls[id].flight, s.calls[id].value)])
    case StoreFail(id, e) => s.(calls := s.calls[id := Failing(s.calls[id].flight, e)])
    case Publish(id) => End(s, id, Loaded(s.calls[id].value))
    case Fail(id) => End(s, id, Raised(s.calls[id].error))
    case Wake(id) =>
      var f := s.calls[id].flight;
      s.(calls := s.calls[id := Returned(f, s.flights[f].result.value)])
    case Forget(keys) =>
      s.(registry := s.registry - keys,
         disturbed := s.disturbed + set k | k in keys && exists id :: id in s.calls && Active(s, id, k))
  }

  // ---------------------------------------------------------------- invariant

  ghost predicate CallInv(s: State, id: nat)
    requires id in s.calls
  {
    var call := s.calls[id];
    && call.flight < |s.flights|
    && (Leads(call) ==> s.flights[call.flight].leader == id && s.flights[call.flight].result.None?)
    && (call.Returned? ==> s.flights[call.flight].result == Some(call.outcome))
  }

  ghost predicate FlightInv(s: State, f: nat)
    requires f < |s.flights|
  {
    var flight := s.flights[f];
    && flight.leader in s.calls
    && s.calls[flight.leader].flight == f
    && (flight.result.None? <==> Leads(s.calls[flight.leader]))
    && (flight.result.Some? ==> s.calls[flight.leader].Returned?)
    && flight.publishes == if flight.result.Some? then 1 else 0
  }

  ghost predicate SlotInv(s: State, k: Key) {
    && (k in s.registry ==>
          && s.registry[k] < |s.flights|
          && s.flights[s.registry[k]].key == k
          && s.flights[s.registry[k]].result.None?)
    && (k !in s.disturbed ==>
          forall id :: id in s.calls && Active(s, id, k) ==> k in s.registry && s.registry[k] == s.calls[id].flight)
  }

  ghost predicate Inv(s: State) {
    && (forall id :: id in s.calls ==> CallInv(s, id))
    && (forall f :: 0 <= f < |s.flights| ==> FlightInv(s, f))
    && (forall k :: SlotInv(s, k))
  }

  lemma MissInv(s: State, id: nat, k: Key)
    requires Inv(s) && Enabled(s, Miss(id, k))
    ensures Inv(Do(s, Miss(id, k)))
  {
    var s' := Do(s, Miss(id, k));
    forall c | c in s'.calls ensures CallInv(s', c) {
      if c != id { assert CallInv(s, c); } else { assert SlotInv(s, k); }
    }
    forall f | 0 <= f < |s'.flights| ensures FlightInv(s', f) {
      if f < |s.flights| { assert FlightInv(s, f); }
    }
    forall j ensures SlotInv(s', j) {
      assert SlotInv(s, j);
      forall c | c in s'.calls && Active(s', c, j) && c != id ensures Active(s, c, j) {
        assert CallInv(s, c);
      }
    }
  }

  /** A leader moves on without ending its flight. */
  lemma AdvanceInv(s: State, id: nat, call: Call)
    requires Inv(s) && id in s.calls && Leads(s.calls[id]) && Leads(call) && call.flight == s.calls[id].flight
    ensures Inv(s.(calls := s.calls[id := call]))
  {
    var s' := s.(calls := s.calls[id := call]);
    forall c | c in s'.calls ensures CallInv(s', c) { assert CallInv(s, c); }
    forall f | 0 <= f < |s'.flights| ensures FlightInv(s', f) { assert FlightInv(s, f); }
    forall j ensures SlotInv(s', j) {
      assert SlotInv(s, j);
      assert forall c :: c in s'.calls && Active(s', c, j) ==> Active(s, c, j);
    }
  }

  lemma EndInv(s: State, id: nat, outcome: Outcome)
    requires Inv(s) && id in s.calls && Leads(s.calls[id])
    ensures CallInv(s, id)
    ensures Inv(End(s, id, outcome))
  {
    assert CallInv(s, id);
    var s' := End(s, id, outcome);
    var g := s.calls[id].flight;
    forall c | c in s'.calls ensures CallInv(s', c) { assert CallInv(s, c); }
    forall f | 0 <= f < |s'.flights| ensures FlightInv(s', f) { assert FlightInv(s, f); }
    forall j ensures SlotInv(s', j) {
      assert SlotInv(s, j);
      forall c | c in s'.calls && Active(s', c, j) ensures c != id && Active(s, c, j) {
        assert CallInv(s, c);
      }
      if j == s.flights[g].key {
        assert Active(s, id, j);
      }
    }
  }

  lemma WakeInv(s: State, id: nat)
    requires Inv(s) && Enabled(s, Wake(id))
    ensures Inv(Do(s, Wake(id)))
  {
    var s' := Do(s, Wake(id));
    forall c | c in s'.calls ensures CallInv(s', c) { assert CallInv(s, c); }
    forall f | 0 <= f < |s'.flights| ensures FlightInv(s', f) { assert FlightInv(s, f); }
    forall j ensures SlotInv(s', j) {
      assert SlotInv(s, j);
      assert forall c :: c in s'.calls && Active(s', c, j) ==> Active(s, c, j);
    }
  }

  lemma ForgetInv(s: State, keys: set<Key>)
    requires Inv(s)
    ensures Inv(Do(s, Forget(keys)))
  {
    var s' := Do(s, Forget(keys));
    forall c | c in s'.calls ensures CallInv(s', c) { assert CallInv(s, c); }
    forall f | 0 <= f < |s'.flights| ensures FlightInv(s', f) { assert FlightInv(s, f); }
    forall j ensures SlotInv(s', j) {
      assert SlotInv(s, j);
      assert forall c :: c in s'.calls && Active(s', c, j) ==> Active(s, c, j);
    }
  }

  lemma StepInv(s: State, step: Step)
    requires Inv(s) && Enabled(s, step)
    ensures Inv(Do(s, step))
  {
    match step
    case Miss(id, k) => MissInv(s, id, k);
    case LoadOk(id, v) => AdvanceInv(s, id, Storing(s.calls[id].flight, v));
    case LoadFail(id, e) => AdvanceInv(s, id, Failing(s.calls[id].flight, e));
    case StoreOk(id) => AdvanceInv(s, id, Publishing(s.calls[id].flight, s.calls[id].value));
    case StoreFail(id, e) => AdvanceInv(s, id, Failing(s.calls[id].flight, e));
    case Publish(id) => EndInv(s, id, Loaded(s.calls[id].value));
    case Fail(id) => EndInv(s, id, Raised(s.calls[id].error));
    case Wake(id) => WakeInv(s, id);
    case Forget(keys) => ForgetInv(s, keys);
  }

  // ---------------------------------------------------------------- whole runs

  ghost predicate Takes(s: State, step: Step, s': State) {
    Enabled(s, step) && s' == Do(s, step)
  }

  ghost predicate Execution(r: Run<State, Step>) {
    IsRun(Takes, r) && r.states[0] == INIT
  }

  lemma ExecutionInv(r: Run<State, Step>, n: nat)
    requires Execution(r) && n <= |r.steps|
    ensures Inv(r.states[n])
  {
    forall s, step, s' | Inv(s) && Takes(s, step, s') ensures Inv(s') {
      StepInv(s, step);
    }
    Invariance(Takes, Inv, r, n);
  }

  /** A flight is published once, by its own leader, and exactly when that leader is done. */
  lemma PublishedOnceByItsLeader(r: Run<State, Step>, f: nat)
    requires Execution(r) && f < |Final(r).flights|
    ensures var s := Final(r);
            var flight := s.flights[f];
            && flight.publishes <= 1
            && (flight.publishes == 1 <==> flight.result.Some?)
            && flight.leader in s.calls
            && (flight.result.Some? <==> s.calls[flight.leader].Returned?)
            && (flight.result.None? <==> Active(s, flight.leader, flight.key))
            && (forall id :: id in s.calls && Leads(s.calls[id]) && s.calls[id].flight == f ==> id == flight.leader)
  {
    ExecutionInv(r, |r.steps|);
    var s := Final(r);
    assert FlightInv(s, f);
    assert CallInv(s, s.flights[f].leader);
    forall id | id in s.calls && Leads(s.calls[id]) && s.calls[id].flight == f ensures id == s.flights[f].leader {
      assert CallInv(s, id);
    }
  }

  /** Nobody waits on a flight that no one will publish. */
  lemma NoOrphanedWaiter(r: Run<State, Step>, id: nat)
    requires Execution(r) && id in Final(r).calls && Final(r).calls[id].Waiting?
    ensures var s := Final(r);
            var f := s.calls[id].flight;
            && f < |s.flights|
            && (s.flights[f].result.Some? || Active(s, s.flights[f].leader, s.flights[f].key))
  {
    ExecutionInv(r, |r.steps|);
    var s := Final(r);
    assert CallInv(s, id);
    assert FlightInv(s, s.calls[id].flight);
  }

  /** All members of a flight return the same result or raise the same exception. */
  lemma MembersAgree(r: Run<State, Step>, a: nat, b: nat)
    requires Execution(r)
    requires a in Final(r).calls && b in Final(r).calls && Final(r).calls[a].Returned? && Final(r).calls[b].Returned?
    requires Final(r).calls[a].flight == Final(r).calls[b].flight
    ensures Final(r).calls[a].outcome == Final(r).calls[b].outcome
  {
    ExecutionInv(r, |r.steps|);
    assert CallInv(Final(r), a) && CallInv(Final(r), b);
  }

  /** A key that no delete or clear hit while a flight was up has at most one active loader. */
  lemma AtMostOneLoader(r: Run<State, Step>, k: Key, a: nat, b: nat)
    requires Execution(r) && k !in Final(r).disturbed
    requires Active(Final(r), a, k) && Active(Final(r), b, k)
    ensures a == b
  {
    ExecutionInv(r, |r.steps|);
    var s := Final(r);
    assert SlotInv(s, k);
    assert CallInv(s, a) && CallInv(s, b);
  }

  /** A delete or clear of `k` while a flight for it is up. */
  ghost predicate Disturbs(s: State, step: Step, k: Key) {
    step.Forget? && k in step.keys && exists id :: id in s.calls && Active(s, id, k)
  }

  /** A key is disturbed only if a delete or clear hit it during the run. */
  lemma {:induction false} DisturbedByForget(r: Run<State, Step>, k: Key, n: nat)
    requires Execution(r) && n <= |r.steps| && k in r.states[n].disturbed
    ensures exists i :: 0 <= i < n && Disturbs(r.states[i], r.steps[i], k)
  {
    if n > 0 {
      assert Takes(r.states[n - 1], r.steps[n - 1], r.states[n - 1 + 1]);
      if k in r.states[n - 1].disturbed {
        DisturbedByForget(r, k, n - 1);
      } else {
        assert Disturbs(r.states[n - 1], r.steps[n - 1], k);
      }
    }
  }

  /**
    The hypothesis is needed: whenever a flight for `k` is up, a delete of `k` followed by a
    miss of another caller gives `k` a second active loader.
   */
  lemma DeleteAdmitsASecondLoader(r: Run<State, Step>, k: Key, a: nat, b: nat) returns (r': Run<State, Step>)
    requires Execution(r) && Active(Final(r), a, k) && b !in Final(r).calls
    ensures Execution(r') && Active(Final(r'), a, k) && Active(Final(r'), b, k) && a != b
  {
    var s1 := Do(Final(r), Forget({k}));
    LongerIsRun(Takes, r, Forget({k}), s1);
    var r1 := Longer(r, Forget({k}), s1);
    var s2 := Do(s1, Miss(b, k));
    LongerIsRun(Takes, r1, Miss(b, k), s2);
    r' := Longer(r1, Miss(b, k), s2);
  }

  /**
    Publishing pops the slot by key, not by flight: a disturbed leader that publishes removes
    the slot of a newer flight that is still up, and the next miss starts one more loader.
   */
  lemma PublishAdmitsAnotherLoader(r: Run<State, Step>, k: Key, a: nat, b: nat, d: nat) returns (r': Run<State, Step>)
    requires Execution(r) && Active(Final(r), a, k) && Final(r).calls[a].Publishing?
    requires Active(Final(r), b, k) && a != b && d !in Final(r).calls
    ensures Execution(r') && Active(Final(r'), b, k) && Active(Final(r'), d, k) && b != d
  {
    var s1 := Do(Final(r), Publish(a));
    LongerIsRun(Takes, r, Publish(a), s1);
    var r1 := Longer(r, Publish(a), s1);
    var s2 := Do(s1, Miss(d, k));
    LongerIsRun(Takes, r1, Miss(d, k), s2);
    r' := Longer(r1, Miss(d, k), s2);
  }
}
