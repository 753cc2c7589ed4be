/** The write-back protocol and its shutdown together: what a closed cache has made durable. */
module Durability {
  import opened Prelude
  import opened Shards
  import opened Cells
  import opened Runs
  import opened WriteBack
  import opened WriteBackInvariant
  import opened WriteBackConvergence
  import opened Homes
  import opened WriteBackTheorems
  import opened WriteBackLedger
  import opened Closing
  import opened CacheShards
  import Shutdown

  /** What the synchronous flush promises when it does not fail: `data` is the source it leaves. */
  ghost predicate ClosedTo(s: State, after: seq<Shard>, data: map<Key, Value>) {
    && |after| == |s.shards|
    && (forall i :: 0 <= i < |after| ==> Shutdown.Persisted(s.shards[i], after[i], data))
    && forall k :: (forall i :: 0 <= i < |after| ==> !Shutdown.Unflushed(s.shards[i], k))
                   ==> Shutdown.SameAt(s.source, data, k)
  }

  /** A shard knows only its own keys, so a key that is flushed at home is flushed everywhere. */
  lemma FlushedAtHome(c: Config, s: State, k: Key, after: seq<Shard>, data: map<Key, Value>)
    requires Homed(c, s) && ClosedTo(s, after, data) && !Shutdown.Unflushed(ShardAt(c, s, k), k)
    ensures Shutdown.SameAt(s.source, data, k)
  {
    forall i | 0 <= i < |after| ensures !Shutdown.Unflushed(s.shards[i], k) {
      assert Home(c, s.shards[i], i);
      assert i != c.route(k) ==> CellOf(s.shards[i], k) == NOTHING;
    }
  }

  /** The newest write of `k` is in `data`. */
  ghost predicate Durable(s: State, k: Key, data: map<Key, Value>) {
    Last(s.log, k).Some? && Reflects(data, s.log[Last(s.log, k).value])
  }

  // ---------------------------------------------------------------- a pool that never started

  /** The flush of a live dirty entry or of a tombstone writes the newest write of its key. */
  lemma FlushedIsNewest(c: Config, s: State, k: Key, after: seq<Shard>, data: map<Key, Value>)
    requires Inv(c, s) && ClosedTo(s, after, data) && Shutdown.Unflushed(ShardAt(c, s, k), k)
    ensures Durable(s, k, data)
  {
    assert KeyInv(CellAt(c, s, k), k, s);
    assert Shutdown.Persisted(ShardAt(c, s, k), after[c.route(k)], data);
  }

  /**
    The close of a cache whose workers were never started.  It raises exactly when something
    is unflushed and the source fails too often; if it does not, and no put of the run evicted
    its own key, the newest write of every dirty entry and of every tombstone is in the source.
   */
  method CloseUnstarted(shards: seq<CacheShard>, backend: Shutdown.SlowDictBackend, room: nat, c: Config,
                        ghost source: map<Key, Value>, ghost r: Run<State, Step>) returns (raised: bool)
    requires Execution(c, source, r) && c.workers == 0 && Separate(shards)
    requires Views(shards) == Final(r).shards && backend.data == Final(r).source
    modifies shards, backend
    ensures raised <==> old(backend.failures) > c.retries && Shutdown.Owing(Final(r).shards)
    ensures !raised && History(c, source, r) ==>
              forall k :: Shutdown.Unflushed(ShardAt(c, Final(r), k), k) ==> Durable(Final(r), k, backend.data)
  {
    forall i | 0 <= i < |shards|
      ensures Shutdown.Consistent(shards[i].View()) && Shutdown.Routed(shards[i].View(), c.route, i)
    {
      ReachableIsClosable(c, source, r, i);
    }
    raised := Shutdown.Close(shards, backend, c.retries, room, c.route);
    ghost var after := Views(shards);
    if !raised && History(c, source, r) {
      HistoryInv(c, source, r);
      assert ClosedTo(Final(r), after, backend.data);
      forall k | Shutdown.Unflushed(ShardAt(c, Final(r), k), k) ensures Durable(Final(r), k, backend.data) {
        FlushedIsNewest(c, Final(r), k, after, backend.data);
      }
    }
  }

  // ---------------------------------------------------------------- running workers

  /** The newest write of `k` was performed, or the closing flush still has it to write. */
  ghost predicate Reaches(c: Config, q: Closing, k: Key)
    requires Shaped(c, q.s)
  {
    Performed(q, k) || Shutdown.Unflushed(ShardAt(c, q.s, k), k)
  }

  /** Every job of the newest write of `k` was rejected or gave up, and no entry holds its value. */
  ghost predicate Forsaken(c: Config, q: Closing, k: Key)
    requires Shaped(c, q.s)
  {
    GivenUp(q, k) && k !in ShardAt(c, q.s, k).entries
  }

  /** Once no job is left, the newest write of a key reaches the source exactly if it is not forsaken. */
  lemma ReachesIffNotForsaken(c: Config, q: Closing, k: Key)
    requires ClosingInv(c, q) && q.s.jobs == map[] && Last(q.s.log, k).Some?
    ensures Reaches(c, q, k) <==> !Forsaken(c, q, k)
  {
    assert KeyClosing(CellAt(c, q.s, k), k, q);
    assert Out(q.s.jobs, k) == {};
    if Performed(q, k) {
      var id :| id in q.s.applied && Newest(q, k, id);
    } else {
      forall id | Newest(q, k, id) ensures id in q.s.lost {
        assert id in q.s.jobs || id in q.s.applied || id in q.s.lost;
      }
    }
  }

  lemma FlushIsNewest(c: Config, q: Closing, k: Key, after: seq<Shard>, data: map<Key, Value>)
    requires ClosingInv(c, q) && ClosedTo(q.s, after, data) && Shutdown.Unflushed(ShardAt(c, q.s, k), k)
    ensures Durable(q.s, k, data)
  {
    assert KeyClosing(CellAt(c, q.s, k), k, q);
    assert Shutdown.Persisted(ShardAt(c, q.s, k), after[c.route(k)], data);
  }

  /**
    What a close that found no job left and then flushed without failure has achieved.  With at
    most one worker the newest write of every key is in the source unless it is forsaken, and
    then the flush has not touched its key.
   */
  lemma JoinedCloseIsDurable(c: Config, q: Closing, k: Key, after: seq<Shard>, data: map<Key, Value>)
    requires ClosingInv(c, q) && q.s.jobs == map[] && ClosedTo(q.s, after, data) && Last(q.s.log, k).Some?
    ensures Shutdown.Unflushed(ShardAt(c, q.s, k), k) ==> Durable(q.s, k, data)
    ensures c.workers <= 1 && !Forsaken(c, q, k) ==> Durable(q.s, k, data)
    ensures Forsaken(c, q, k) ==> Shutdown.SameAt(q.s.source, data, k)
  {
    ReachesIffNotForsaken(c, q, k);
    if Shutdown.Unflushed(ShardAt(c, q.s, k), k) {
      FlushIsNewest(c, q, k, after, data);
    } else {
      FlushedAtHome(c, q.s, k, after, data);
      assert c.workers <= 1 ==> Fixed(q, k);
    }
  }

  /** No client writes during a close. */
  lemma LogStays(c: Config, s: State, run: Run<Closing, Act>)
    requires ClosingRun(c, s, run)
    ensures Final(run).s.log == s.log
  {
    var inv := (q: Closing) => q.s.log == s.log;
    forall q, act, q' | inv(q) && ClosingSteps(c)(q, act, q') ensures inv(q') {
      if act.Work? && Internal(act.step) { InternalKeepsLog(c, q.s, act.step, q'.s); }
    }
    Invariance(ClosingSteps(c), inv, run, |run.steps|);
  }

  lemma InternalKeepsLog(c: Config, s: State, step: Step, s': State)
    requires Takes(c, s, step, s') && Internal(step)
    ensures s'.log == s.log
  {
  }

  /** A key that was tombstoned when close began is forsaken exactly if all its delete jobs were given up. */
  lemma TombstoneIsForsakenIff(c: Config, source: map<Key, Value>, r: Run<State, Step>, run: Run<Closing, Act>, k: Key)
    requires History(c, source, r) && ClosingRun(c, Final(r), run) && Shaped(c, Final(run).s)
    requires k in ShardAt(c, Final(r), k).tombs && Final(run).s.jobs == map[]
    ensures Last(Final(run).s.log, k).Some? && Final(run).s.log[Last(Final(run).s.log, k).value].op.DeleteOp?
    ensures Forsaken(c, Final(run), k) <==> GivenUp(Final(run), k)
  {
    HistoryInv(c, source, r);
    ClosingKeepsInv(c, source, r, run);
    LogStays(c, Final(r), run);
    assert KeyInv(CellAt(c, Final(r), k), k, Final(r));
    assert KeyClosing(CellAt(c, Final(run).s, k), k, Final(run));
  }

  lemma HomedThroughout(c: Config, source: map<Key, Value>, r: Run<State, Step>, run: Run<Closing, Act>)
    requires Execution(c, source, r) && ClosingRun(c, Final(r), run)
    ensures Homed(c, Final(run).s)
  {
    var inv := (q: Closing) => Homed(c, q.s);
    AlwaysHomed(c, source, r);
    forall q, act, q' | inv(q) && ClosingSteps(c)(q, act, q') ensures inv(q') {
      match act
      case Second(k) => SecondHomed(c, q.s, k, q'.s);
      case Work(step) => StepHomed(c, q.s, step, q'.s);
    }
    Invariance(ClosingSteps(c), inv, run, |run.steps|);
  }

  /**
    The end of a close with running workers, once the wait for the queue has succeeded: no job
    is left, and the synchronous flush runs alone.
   */
  method CloseJoined(shards: seq<CacheShard>, backend: Shutdown.SlowDictBackend, c: Config,
                     ghost source: map<Key, Value>, ghost r: Run<State, Step>, ghost run: Run<Closing, Act>)
    returns (raised: bool)
    requires Execution(c, source, r) && ClosingRun(c, Final(r), run) && Separate(shards)
    requires Final(run).s.jobs == map[]
    requires Views(shards) == Final(run).s.shards && backend.data == Final(run).s.source
    modifies shards, backend
    ensures Shaped(c, Final(run).s)
    ensures raised <==> old(backend.failures) > c.retries && Shutdown.Owing(Final(run).s.shards)
    ensures !raised && History(c, source, r) ==> forall k :: Last(Final(run).s.log, k).Some? ==>
              && (Forsaken(c, Final(run), k) ==> Shutdown.SameAt(Final(run).s.source, backend.data, k))
              && (c.workers <= 1 && !Forsaken(c, Final(run), k) ==> Durable(Final(run).s, k, backend.data))
  {
    HomedThroughout(c, source, r, run);
    ghost var q := Final(run);
    forall i | 0 <= i < |shards|
      ensures Shutdown.Consistent(shards[i].View()) && Shutdown.Routed(shards[i].View(), c.route, i)
    {
      HomedIsClosable(c, q.s, i);
    }
    raised := Shutdown.FlushAll(shards, backend, c.retries, c.route);
    ghost var after := Views(shards);
    if !raised && History(c, source, r) {
      ClosingKeepsInv(c, source, r, run);
      assert ClosedTo(q.s, after, backend.data);
      forall k | Last(q.s.log, k).Some?
        ensures Forsaken(c, q, k) ==> Shutdown.SameAt(q.s.source, backend.data, k)
        ensures c.workers <= 1 && !Forsaken(c, q, k) ==> Durable(q.s, k, backend.data)
      {
        JoinedCloseIsDurable(c, q, k, after, backend.data);
      }
    }
  }

  /**
    A lost delete is never repaired by a close, and a lost put exactly while its entry is
    cached: when no flush of the key is outstanding, that is when it is unflushed.
   */
  lemma LostWriteIsFlushedIff(c: Config, source: map<Key, Value>, r: Run<State, Step>, k: Key)
    requires History(c, source, r) && Last(Final(r).log, k).Some? && Last(Final(r).log, k).value in Final(r).lost
    requires forall id :: id in Final(r).jobs ==> Final(r).jobs[id].key != k
    ensures var s := Final(r);
            var put := s.log[Last(s.log, k).value].op.PutOp?;
            Shutdown.Unflushed(ShardAt(c, s, k), k) <==> put && k in ShardAt(c, s, k).entries
  {
    LostWriteLeaves(c, source, r, k);
  }
}
