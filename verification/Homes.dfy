/**
  Metadata laws that need no assumption on the run, not even that puts spare their own keys:
  every reachable cache is in the state its shutdown relies on.
 */
module Homes {
  import opened Prelude
  import opened Policies
  import opened Shards
  import opened Cells
  import opened Runs
  import opened WriteBack
  import Shutdown

  const NOTHING := Cell(None, None, None, 0)

  /** Live entries and tombstones exclude each other and equal their mark; no mark outlives its use. */
  predicate Tidy(c: Cell) {
    && (c.live.Some? ==> c.mark == Some(c.live.value.version) && c.tomb.None?)
    && (c.tomb.Some? ==> c.tomb == c.mark && c.pending > 0)
    && (c.mark.Some? ==> c.live.Some? || c.pending > 0)
  }

  /** Shard `i` is tidy and knows nothing of keys routed elsewhere. */
  ghost predicate Home(c: Config, sh: Shard, i: nat) {
    && ShardOk(sh)
    && KindOf(sh.policy) == c.kind
    && forall k :: Tidy(CellOf(sh, k)) && (c.route(k) != i ==> CellOf(sh, k) == NOTHING)
  }

  function CapacityOf(c: Config, i: nat): nat
    requires i < c.shardCount
  {
    ShardCapacities(c.capacity, c.shardCount)[i]
  }

  /** All shards are at home and as large as configured. */
  ghost predicate Homed(c: Config, s: State) {
    && Shaped(c, s)
    && (forall i :: 0 <= i < c.shardCount ==> Home(c, s.shards[i], i))
    && forall i :: 0 <= i < c.shardCount ==> s.shards[i].capacity == CapacityOf(c, i)
  }

  /** A region that tidily changes the cell of `k` and at most weathers the others. */
  ghost predicate Changes(sh: Shard, k: Key, sh': Shard) {
    && ShardOk(sh') && KindOf(sh'.policy) == KindOf(sh.policy) && sh'.capacity == sh.capacity
    && Tidy(CellOf(sh', k))
    && forall j :: j != k ==> Weathered(CellOf(sh, j), CellOf(sh', j))
  }

  lemma HomeKept(c: Config, s: State, k: Key, sh': Shard, s': State)
    requires Homed(c, s) && Changes(ShardAt(c, s, k), k, sh') && s'.shards == s.shards[c.route(k) := sh']
    ensures Homed(c, s')
  {
  }

  /** Capacity enforcement and registration after a store; the victim may be the key itself. */
  lemma StoredCells(stored: Shard, k: Key)
    requires Tidy(CellOf(stored, k)) && CellOf(stored, k).tomb.None?
    ensures Tidy(CellOf(Register(Enforce(stored), k), k))
    ensures forall j :: j != k ==> Weathered(CellOf(stored, j), CellOf(Register(Enforce(stored), k), j))
  {
    EnforceCells(stored);
    RegisterCells(Enforce(stored), k);
    assert Weathered(CellOf(stored, k), CellOf(Enforce(stored), k));
  }

  lemma PutChanges(sh: Shard, k: Key, v: Value, ttl: TtlArg, now: real, defaultTtl: Option<real>)
    requires ShardOk(sh)
    ensures Changes(sh, k, Put(sh, k, v, ttl, now, Mode.WriteBack, defaultTtl))
  {
    var expired := LazyExpire(sh, k, now);
    LazyExpireCells(sh, k, now);
    var stored := Store(expired, k, v, ttl, now, Mode.WriteBack, defaultTtl);
    StoreCells(expired, k, v, ttl, now, defaultTtl);
    StoredCells(stored, k);
    assert Put(sh, k, v, ttl, now, Mode.WriteBack, defaultTtl) == Register(Enforce(stored), k);
  }

  lemma DeleteChanges(sh: Shard, k: Key)
    requires ShardOk(sh)
    ensures Changes(sh, k, Delete(sh, k, Mode.WriteBack))
  {
    DeleteCells(sh, k);
  }

  lemma ReadChanges(sh: Shard, k: Key, touch: bool, now: real)
    requires ShardOk(sh) && Tidy(CellOf(sh, k))
    ensures Changes(sh, k, Read(sh, k, touch, now).1)
  {
    ReadOk(sh, k, touch, now);
    ReadCells(sh, k, touch, now);
    assert Weathered(CellOf(sh, k), CellOf(Read(sh, k, touch, now).1, k));
  }

  lemma SettleHomed(c: Config, s: State, k: Key, sh': Shard, s': State)
    requires Homed(c, s) && Changes(ShardAt(c, s, k), k, sh') && s'.shards == s.shards[c.route(k) := Resolve(sh', k)]
    ensures Homed(c, s')
  {
    ResolveCells(sh', k);
    HomeKept(c, s, k, Resolve(sh', k), s');
  }

  lemma ExpireHomed(c: Config, s: State, i: nat, now: real)
    requires Homed(c, s) && i < c.shardCount
    ensures Homed(c, s.(shards := s.shards[i := ExpireAll(s.shards[i], now)]))
  {
    assert Home(c, s.shards[i], i);
    ExpireHome(c, s.shards[i], i, now, ExpireAll(s.shards[i], now));
  }

  lemma ExpireHome(c: Config, sh: Shard, i: nat, now: real, sh': Shard)
    requires Home(c, sh, i) && sh' == ExpireAll(sh, now)
    ensures Home(c, sh', i) && sh'.capacity == sh.capacity
  {
    forall k ensures Tidy(CellOf(sh', k)) && (c.route(k) != i ==> CellOf(sh', k) == NOTHING) {
      ExpireWeathers(sh, now, sh', k);
    }
  }

  lemma {:induction false} DeleteKeysHomed(c: Config, s: State, ks: seq<Key>, i: nat)
    requires Homed(c, s) && forall k :: k in ks ==> c.route(k) == i
    ensures Homed(c, DeleteKeys(c, s, ks))
    ensures i < c.shardCount ==> DeleteKeys(c, s, ks).shards[i] == DeleteAll(s.shards[i], ks, Mode.WriteBack)
    decreases |ks|
  {
    if ks != [] {
      DeleteChanges(ShardAt(c, s, ks[0]), ks[0]);
      HomeKept(c, s, ks[0], Delete(ShardAt(c, s, ks[0]), ks[0], Mode.WriteBack), DeleteFrom(c, s, ks[0]));
      DeleteKeysHomed(c, DeleteFrom(c, s, ks[0]), ks[1..], i);
    }
  }

  lemma ResetHome(c: Config, s: State, i: nat)
    requires Homed(c, s) && i < c.shardCount && s.shards[i].order == []
    ensures Homed(c, s.(shards := s.shards[i := s.shards[i].(policy := Fresh(c.kind))]))
  {
    SameCells(s.shards[i], s.shards[i].(policy := Fresh(c.kind)));
  }

  lemma ClearHomed(c: Config, s: State, i: nat)
    requires Homed(c, s) && i < c.shardCount
    ensures Homed(c, ClearShard(c, s, i))
  {
    var sh := s.shards[i];
    forall k | k in sh.order ensures c.route(k) == i {
      assert CellOf(sh, k) != NOTHING;
    }
    DeleteKeysHomed(c, s, sh.order, i);
    ClearEmpties(sh, Mode.WriteBack);
    ResetHome(c, DeleteKeys(c, s, sh.order), i);
  }

  lemma ClientHomed(c: Config, s: State, step: Step, s': State)
    requires Homed(c, s) && Enabled(c, s, step) && !Internal(step) && s' == Do(c, s, step)
    ensures Homed(c, s')
  {
    match step
    case PutStep(k, v, ttl, now) =>
      PutChanges(ShardAt(c, s, k), k, v, ttl, now, c.defaultTtl);
      HomeKept(c, s, k, Put(ShardAt(c, s, k), k, v, ttl, now, Mode.WriteBack, c.defaultTtl), s');
    case DeleteStep(k) =>
      DeleteChanges(ShardAt(c, s, k), k);
      HomeKept(c, s, k, Delete(ShardAt(c, s, k), k, Mode.WriteBack), s');
    case ClearStep(i) => ClearHomed(c, s, i);
    case ReadStep(k, touch, now) =>
      ReadChanges(ShardAt(c, s, k), k, touch, now);
      HomeKept(c, s, k, Read(ShardAt(c, s, k), k, touch, now).1, s');
    case InspectStep(k, now) =>
      LazyExpireCells(ShardAt(c, s, k), k, now);
      HomeKept(c, s, k, LazyExpire(ShardAt(c, s, k), k, now), s');
    case ExpireStep(i, now) => ExpireHomed(c, s, i, now);
  }

  lemma CleanedChanges(sh: Shard, job: Job)
    requires ShardOk(sh) && Tidy(CellOf(sh, job.key))
    ensures Changes(sh, job.key, CleanedBy(sh, job))
  {
    MarkCleanCells(sh, job.key, job.version);
  }

  lemma JobHomed(c: Config, s: State, step: Step, s': State)
    requires Homed(c, s) && Enabled(c, s, step) && Internal(step) && s' == Do(c, s, step)
    ensures Homed(c, s')
  {
    if step.RejectStep? || step.SkipStep? || step.RetryDroppedStep? || step.GiveUpStep? {
      SettleHomed(c, s, s.jobs[step.id].key, ShardAt(c, s, s.jobs[step.id].key), s');
    } else if step.FinishStep? {
      var job := s.jobs[step.id];
      CleanedChanges(ShardAt(c, s, job.key), job);
      SettleHomed(c, s, job.key, CleanedBy(ShardAt(c, s, job.key), job), s');
    } else {
      assert s'.shards == s.shards;
    }
  }

  lemma StepHomed(c: Config, s: State, step: Step, s': State)
    requires Homed(c, s) && Takes(c, s, step, s')
    ensures Homed(c, s')
  {
    if Internal(step) { JobHomed(c, s, step, s'); } else { ClientHomed(c, s, step, s'); }
  }

  ghost function HomedIn(c: Config): State -> bool {
    s => Homed(c, s)
  }

  /** The invariant holds throughout every execution. */
  lemma HomedAt(c: Config, source: map<Key, Value>, r: Run<State, Step>, n: nat)
    requires Execution(c, source, r) && n <= |r.steps|
    ensures Homed(c, r.states[n])
  {
    forall s, step, s' | HomedIn(c)(s) && Steps(c)(s, step, s') ensures HomedIn(c)(s') {
      StepHomed(c, s, step, s');
    }
    Invariance(Steps(c), HomedIn(c), r, n);
  }

  /** The invariant holds in every reachable state of every execution. */
  lemma AlwaysHomed(c: Config, source: map<Key, Value>, r: Run<State, Step>)
    requires Execution(c, source, r)
    ensures Homed(c, Final(r))
  {
    HomedAt(c, source, r, |r.steps|);
  }

  lemma HomedIsClosable(c: Config, s: State, i: nat)
    requires Homed(c, s) && i < c.shardCount
    ensures Shutdown.Consistent(s.shards[i]) && Shutdown.Routed(s.shards[i], c.route, i)
  {
    var sh := s.shards[i];
    assert Home(c, sh, i);
    forall k | k in sh.entries || k in sh.tombs ensures c.route(k) == i && Tidy(CellOf(sh, k)) {
      assert CellOf(sh, k) != NOTHING;
    }
  }

  /** Every reachable shard is consistent and holds only its own keys, as `Shutdown.Close` requires. */
  lemma ReachableIsClosable(c: Config, source: map<Key, Value>, r: Run<State, Step>, i: nat)
    requires Execution(c, source, r) && i < c.shardCount
    ensures Shutdown.Consistent(Final(r).shards[i]) && Shutdown.Routed(Final(r).shards[i], c.route, i)
  {
    AlwaysHomed(c, source, r);
    HomedIsClosable(c, Final(r), i);
  }

  /** The metadata maps never outgrow the live and the pending keys, in any execution. */
  lemma MetadataIsBounded(c: Config, source: map<Key, Value>, r: Run<State, Step>, i: nat)
    requires Execution(c, source, r) && i < c.shardCount
    ensures var sh := Final(r).shards[i];
            && sh.marks.Keys <= sh.entries.Keys + sh.pending.Keys
            && sh.tombs.Keys <= sh.pending.Keys - sh.entries.Keys
  {
    AlwaysHomed(c, source, r);
    var sh := Final(r).shards[i];
    forall k | k in sh.marks || k in sh.tombs
      ensures k in sh.entries || k in sh.pending
      ensures k in sh.tombs ==> k in sh.pending && k !in sh.entries
    {
      assert Tidy(CellOf(sh, k));
    }
  }
}
