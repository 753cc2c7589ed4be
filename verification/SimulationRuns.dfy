/** A simulation is a run of requests: every law of shard runs holds of it. */
module SimulationRuns {
  import opened Prelude
  import opened Shards
  import opened ShardRuns
  import opened TtlMap
  import Simulation

  type Sim = Simulation.Sim
  type Access = Simulation.Access

  function Own(m: Sim): Setting {
    Setting(m.capacity, m.kind, CacheOnly, None)
  }

  /** A read is a `get`, followed by a `put` of the key's value if the shard does not hold it; a write is a `put`. */
  function Requests(m: Sim, trace: seq<Access>): seq<Request> {
    if trace == [] then []
    else
      var n := |trace| - 1;
      var before := Requests(m, trace[..n]);
      match trace[n]
      case Store(k) => before + [PutReq(k, m.written(n), Unset, m.clock(n))]
      case Fetch(k) =>
        if k in ShardRuns.After(Own(m), before).entries then before + [GetReq(k, m.clock(n))]
        else before + [GetReq(k, m.clock(n)), PutReq(k, m.value(k), Unset, m.clock(n))]
  }

  lemma AfterOne(c: Setting, reqs: seq<Request>, req: Request)
    ensures ShardRuns.After(c, reqs + [req]) == Serve(c, ShardRuns.After(c, reqs), req).1
  {
    assert (reqs + [req])[..|reqs|] == reqs;
  }

  lemma AfterTwo(c: Setting, reqs: seq<Request>, a: Request, b: Request)
    ensures ShardRuns.After(c, reqs + [a, b]) == Serve(c, Serve(c, ShardRuns.After(c, reqs), a).1, b).1
  {
    AfterOne(c, reqs, a);
    AfterOne(c, reqs + [a], b);
    assert reqs + [a, b] == (reqs + [a]) + [b];
  }

  lemma HeldIsFound(sh: Shard, k: Key, now: real)
    requires Simulation.Eternal(sh)
    ensures Read(sh, k, true, now).0.Some? <==> k in sh.entries
  {
  }

  /** The simulated shard has served exactly these requests. */
  lemma {:induction false} SimulationServesRequests(m: Sim, trace: seq<Access>)
    requires m.capacity >= 1
    ensures Simulation.After(m, trace) == ShardRuns.After(Own(m), Requests(m, trace))
  {
    if trace != [] {
      var n := |trace| - 1;
      var sh, before := Simulation.After(m, trace[..n]), Requests(m, trace[..n]);
      SimulationServesRequests(m, trace[..n]);
      match trace[n]
      case Store(k) => AfterOne(Own(m), before, PutReq(k, m.written(n), Unset, m.clock(n)));
      case Fetch(k) =>
        Simulation.SimulationIsEternal(m, trace[..n]);
        HeldIsFound(sh, k, m.clock(n));
        AfterOne(Own(m), before, GetReq(k, m.clock(n)));
        AfterTwo(Own(m), before, GetReq(k, m.clock(n)), PutReq(k, m.value(k), Unset, m.clock(n)));
    }
  }

  /** A held key has the value of its newest write or missed read, whichever came last. */
  lemma HeldValueIsNewest(m: Sim, trace: seq<Access>, k: Key)
    requires m.capacity >= 1 && k in Simulation.After(m, trace).entries
    ensures Latest(Requests(m, trace), k) == Some(Simulation.After(m, trace).entries[k].value)
  {
    var reqs := Requests(m, trace);
    SimulationServesRequests(m, trace);
    RunsAreLossy(Own(m), reqs);
    assert reqs[..|reqs|] == reqs;
    assert k in View(ShardRuns.After(Own(m), reqs));
    LossyValue(Own(m), reqs, Views(Own(m), reqs), |reqs|, k);
  }
}
