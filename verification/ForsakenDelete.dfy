/**
  A delete that close loses although it returns normally: its job and the second job close
  creates both give up, the tombstone is pruned with the second, and nothing is left to flush.
 */
module ForsakenDelete {
  import opened Prelude
  import opened Shards
  import opened Cells
  import opened Runs
  import opened WriteBack
  import opened WriteBackInvariant
  import opened Homes
  import opened Closing
  import opened Durability
  import Shutdown

  lemma Go(c: Config, s: State, run: Run<Closing, Act>, act: Act, q: Closing) returns (run': Run<Closing, Act>)
    requires ClosingRun(c, s, run) && Moves(c, Final(run), act, q)
    ensures ClosingRun(c, s, run') && Final(run') == q
  {
    run' := Longer(run, act, q);
    LongerIsRun(ClosingSteps(c), run, act, q);
  }

  lemma WorkNext(c: Config, s: State, run: Run<Closing, Act>, step: Step) returns (run': Run<Closing, Act>)
    requires ClosingRun(c, s, run) && Internal(step) && Shaped(c, Final(run).s) && Enabled(c, Final(run).s, step)
    ensures ClosingRun(c, s, run') && Final(run') == Closing(Do(c, Final(run).s, step), Final(run).seconds)
  {
    run' := Go(c, s, run, Work(step), Closing(Do(c, Final(run).s, step), Final(run).seconds));
  }

  /** Job `id` is the only queued one, nobody works, and it is not stale. */
  ghost predicate Alone(c: Config, s: State, id: nat) {
    && Shaped(c, s) && s.queue == [id] && At(s, id, Queued) && !Stale(c, s, s.jobs[id])
    && forall i :: i in s.jobs ==> !Held(s.jobs[i].place)
  }

  /** The state after job `id` has given up. */
  ghost predicate GaveUp(c: Config, s: State, id: nat, s': State)
    requires Shaped(c, s) && id in s.jobs
  {
    var k := s.jobs[id].key;
    s' == s.(shards := s.shards[c.route(k) := Resolve(ShardAt(c, s, k), k)], jobs := s.jobs - {id}, queue := [],
             lost := s.lost + {id}, counts := s'.counts)
  }

  lemma TakeAndPass(c: Config, s: State, run: Run<Closing, Act>, id: nat) returns (run': Run<Closing, Act>)
    requires ClosingRun(c, s, run) && c.workers >= 1 && Alone(c, Final(run).s, id)
    ensures ClosingRun(c, s, run') && Final(run').seconds == Final(run).seconds
    ensures var t := Final(run).s;
            Final(run').s == t.(jobs := t.jobs[id := t.jobs[id].(place := Passed(0))], queue := [])
  {
    run' := WorkNext(c, s, run, TakeStep(0));
    run' := WorkNext(c, s, run', PassStep(id));
  }

  /** The source fails whenever the job is tried, until it gives up. */
  lemma {:induction false} FailJob(c: Config, s: State, run: Run<Closing, Act>, id: nat)
    returns (run': Run<Closing, Act>)
    requires ClosingRun(c, s, run) && c.workers >= 1 && Alone(c, Final(run).s, id)
    ensures ClosingRun(c, s, run') && GaveUp(c, Final(run).s, id, Final(run').s)
    ensures Final(run').seconds == Final(run).seconds
    decreases Final(run).s.jobs[id].retriesLeft
  {
    run' := TakeAndPass(c, s, run, id);
    if Final(run).s.jobs[id].retriesLeft == 0 {
      run' := WorkNext(c, s, run', GiveUpStep(id));
    } else {
      run' := WorkNext(c, s, run', RetryStep(id));
      var tried := Final(run').s;
      run' := FailJob(c, s, run', id);
      assert tried.jobs - {id} == Final(run).s.jobs - {id};
    }
  }

  /** One job waits to be enqueued; it is enqueued and fails. */
  lemma EnqueueAndFail(c: Config, s: State, run: Run<Closing, Act>, id: nat) returns (run': Run<Closing, Act>)
    requires ClosingRun(c, s, run) && c.workers >= 1 && Shaped(c, Final(run).s)
    requires Final(run).s.queue == [] && At(Final(run).s, id, Created) && !Stale(c, Final(run).s, Final(run).s.jobs[id])
    requires forall i :: i in Final(run).s.jobs ==> !Held(Final(run).s.jobs[i].place)
    ensures ClosingRun(c, s, run') && GaveUp(c, Final(run).s, id, Final(run').s)
    ensures Final(run').seconds == Final(run).seconds
  {
    run' := WorkNext(c, s, run, EnqueueStep(id));
    var queued := Final(run').s;
    run' := FailJob(c, s, run', id);
    assert queued.jobs - {id} == Final(run).s.jobs - {id};
  }

  /** A delete of an unknown key in an empty cache: one job, a tombstone, nothing else anywhere. */
  lemma FirstDelete(c: Config, source: map<Key, Value>, k: Key) returns (r: Run<State, Step>)
    requires ValidConfig(c)
    ensures History(c, source, r)
    ensures var s := Final(r);
            && s.log == [Write(k, DeleteOp)] && s.source == source && s.queue == [] && s.lost == {} && s.applied == {}
            && s.jobs == map[0 := Job(k, DeleteOp, 1, c.retries, 0, Created)]
            && CellAt(c, s, k) == Cell(None, Some(1), Some(1), 1)
            && forall i, j :: 0 <= i < c.shardCount && (i != c.route(k) || j != k) ==> CellOf(s.shards[i], j) == NOTHING
  {
    var s0 := Init(c, source);
    var step := DeleteStep(k);
    r := Longer(Run([s0], []), step, Do(c, s0, step));
    LongerIsRun(Steps(c), Run([s0], []), step, Do(c, s0, step));
    LongerIsRun(GentleSteps(c), Run([s0], []), step, Do(c, s0, step));
    DeleteCells(ShardAt(c, s0, k), k);
  }

  /** Close begins: the tombstone gets a second job. */
  lemma SecondDelete(c: Config, s: State, k: Key) returns (run: Run<Closing, Act>)
    requires Shaped(c, s) && CellAt(c, s, k) == Cell(None, Some(1), Some(1), 1) && |s.log| == 1
    ensures ClosingRun(c, s, run) && Final(run).seconds == map[1 := k]
    ensures Final(run).s == s.(shards := s.shards[c.route(k) := Register(ShardAt(c, s, k), k)],
                               jobs := s.jobs[1 := Job(k, DeleteOp, 1, c.retries, 0, Created)])
  {
    var q := Closing(s, map[]);
    assert Shutdown.Unflushed(ShardAt(c, s, k), k);
    assert map[][1 := k] == map[1 := k];
    run := Go(c, s, Run([q], []), Second(k), AddSecond(c, q, k));
  }

  /**
    With any number of running workers and any number of retries: `k` is in the source and its
    newest write is a delete; close leaves no job, finds nothing to flush, so that it returns
    normally, and `k` is still in the source.
   */
  lemma CloseCanForsakeADelete(c: Config, source: map<Key, Value>, k: Key)
    returns (r: Run<State, Step>, run: Run<Closing, Act>)
    requires ValidConfig(c) && c.workers >= 1 && k in source
    ensures History(c, source, r) && k in ShardAt(c, Final(r), k).tombs
    ensures ClosingRun(c, Final(r), run) && Final(run).s.jobs == map[]
    ensures Shaped(c, Final(run).s) && Forsaken(c, Final(run), k) && !Shutdown.Owing(Final(run).s.shards)
    ensures Final(run).s.log == [Write(k, DeleteOp)] && Final(run).s.source == source
  {
    r := FirstDelete(c, source, k);
    var s := Final(r);
    var sh := ShardAt(c, s, k);
    run := SecondDelete(c, s, k);
    RegisterCells(sh, k);
    run := EnqueueAndFail(c, s, run, 0);
    ResolveCells(Register(sh, k), k);
    run := EnqueueAndFail(c, s, run, 1);
    ResolveCells(Resolve(Register(sh, k), k), k);
    assert Final(run).s.jobs == map[];
    forall i, j | 0 <= i < c.shardCount ensures CellOf(Final(run).s.shards[i], j) == NOTHING {
      assert i != c.route(k) || j != k ==> CellOf(s.shards[i], j) == NOTHING;
    }
    NothingOwing(Final(run).s.shards);
  }

  lemma NothingOwing(shards: seq<Shard>)
    requires forall i, j :: 0 <= i < |shards| ==> CellOf(shards[i], j) == NOTHING
    ensures !Shutdown.Owing(shards)
  {
    forall i, j | 0 <= i < |shards| ensures !Shutdown.Unflushed(shards[i], j) {
      assert CellOf(shards[i], j) == NOTHING;
    }
  }
}
