/**
  Write-through mode over all shards: each step is one region under a shard lock, which here
  includes the source call, and any source call may fail.
 */
module WriteThrough {
  import opened Prelude
  import opened Policies
  import opened Shards
  import opened Runs

  datatype Config = Config(shardCount: nat, route: Key -> nat, defaultTtl: Option<real>)

  datatype State = State(shards: seq<Shard>, source: map<Key, Value>)

  /**
    `works` tells whether the source call succeeds; in a clear the source fails on key number
    `failsAt` of the shard, or never if it has fewer.
   */
  datatype Step =
    | Write(key: Key, value: Value, ttl: TtlArg, now: real, works: bool)
    | Erase(key: Key, works: bool)
    | Wipe(shard: nat, failsAt: nat)
    | Look(key: Key, touch: bool, now: real)
    | Inspect(key: Key, now: real)
    | Sweep(shard: nat, now: real)

  ghost predicate ValidConfig(c: Config) {
    forall k :: c.route(k) < c.shardCount
  }

  ghost predicate Shaped(c: Config, s: State) {
    ValidConfig(c) && |s.shards| == c.shardCount
  }

  predicate Enabled(c: Config, step: Step) {
    match step
    case Wipe(i, _) => i < c.shardCount
    case Sweep(i, _) => i < c.shardCount
    case Write(_, _, ttl, _, _) => ValidTtl(ttl)
    case _ => true
  }

  function Set(s: State, i: nat, sh: Shard): State
    requires i < |s.shards|
  {
    s.(shards := s.shards[i := sh])
  }

  function RemoveKeys(source: map<Key, Value>, ks: seq<Key>): map<Key, Value> {
    source - Elems(ks)
  }

  function Do(c: Config, s: State, step: Step): (r: State)
    requires Shaped(c, s) && Enabled(c, step)
    ensures Shaped(c, r)
  {
    match step
    case Write(k, v, ttl, now, works) =>
      var sh := s.shards[c.route(k)];
      if works then
        Set(s, c.route(k), Put(sh, k, v, ttl, now, Mode.WriteThrough, c.defaultTtl)).(source := s.source[k := v])
      else Set(s, c.route(k), LazyExpire(sh, k, now))
    case Erase(k, works) =>
      if works then
        Set(s, c.route(k), Delete(s.shards[c.route(k)], k, Mode.WriteThrough)).(source := s.source - {k})
      else s
    case Wipe(i, failsAt) =>
      var sh := s.shards[i];
      if failsAt < |sh.order| then
        var done := sh.order[..failsAt];
        Set(s, i, DeleteAll(sh, done, Mode.WriteThrough)).(source := RemoveKeys(s.source, done))
      else
        Set(s, i, Clear(sh, Mode.WriteThrough)).(source := RemoveKeys(s.source, sh.order))
    case Look(k, touch, now) => Set(s, c.route(k), Read(s.shards[c.route(k)], k, touch, now).1)
    case Inspect(k, now) => Set(s, c.route(k), LazyExpire(s.shards[c.route(k)], k, now))
    case Sweep(i, now) => Set(s, i, ExpireAll(s.shards[i], now))
  }

  /** Every cached entry is routed to its shard and has the value the source has. */
  ghost predicate Coherent(c: Config, s: State) {
    && Shaped(c, s)
    && (forall i :: 0 <= i < |s.shards| ==> ShardOk(s.shards[i]))
    && (forall i, k :: 0 <= i < |s.shards| && k in s.shards[i].entries ==> Matches(c, s, i, k))
  }

  ghost predicate Matches(c: Config, s: State, i: nat, k: Key)
    requires i < |s.shards| && k in s.shards[i].entries
  {
    c.route(k) == i && k in s.source && s.source[k] == s.shards[i].entries[k].value
  }

  /** A region that only removes or touches entries of shard `i`, and source keys no entry needs. */
  lemma ShrinkStep(c: Config, s: State, s': State, i: nat, gone: set<Key>)
    requires Coherent(c, s) && i < |s.shards| == |s'.shards| && ShardOk(s'.shards[i])
    requires s'.shards == s.shards[i := s'.shards[i]] && s'.source == s.source - gone
    requires forall k :: k in gone ==> c.route(k) == i
    requires forall k :: k in s'.shards[i].entries ==>
               k !in gone && k in s.shards[i].entries && s'.shards[i].entries[k].value == s.shards[i].entries[k].value
    ensures Coherent(c, s')
  {
    forall j, k | 0 <= j < |s'.shards| && k in s'.shards[j].entries ensures Matches(c, s', j, k) {
      assert Matches(c, s, j, k);
    }
  }

  lemma WriteStep(c: Config, s: State, k: Key, v: Value, ttl: TtlArg, now: real)
    requires Coherent(c, s) && ValidTtl(ttl)
    ensures Coherent(c, Do(c, s, Write(k, v, ttl, now, true)))
  {
    var s' := Do(c, s, Write(k, v, ttl, now, true));
    var sh, i := s.shards[c.route(k)], c.route(k);
    StoredValues(sh, k, v, ttl, now, c.defaultTtl);
    forall j, x | 0 <= j < |s'.shards| && x in s'.shards[j].entries ensures Matches(c, s', j, x) {
      if j != i || x != k { assert Matches(c, s, j, x); }
    }
  }

  lemma StoredValues(sh: Shard, k: Key, v: Value, ttl: TtlArg, now: real, defaultTtl: Option<real>)
    ensures var r := Put(sh, k, v, ttl, now, Mode.WriteThrough, defaultTtl);
            forall x :: x in r.entries ==>
              if x == k then r.entries[x].value == v else x in sh.entries && r.entries[x] == sh.entries[x]
  {
    var expired := LazyExpire(sh, k, now);
    var stored := Store(expired, k, v, ttl, now, Mode.WriteThrough, defaultTtl);
    assert stored.entries[k].value == v;
  }

  lemma {:induction false} DeleteAllKeeps(sh: Shard, ks: seq<Key>)
    ensures var r := DeleteAll(sh, ks, Mode.WriteThrough);
            forall x :: x in r.entries ==> x in sh.entries && r.entries[x] == sh.entries[x]
    decreases |ks|
  {
    if ks != [] { DeleteAllKeeps(Delete(sh, ks[0], Mode.WriteThrough), ks[1..]); }
  }

  lemma WipeStep(c: Config, s: State, i: nat, failsAt: nat)
    requires Coherent(c, s) && i < c.shardCount
    ensures Coherent(c, Do(c, s, Wipe(i, failsAt)))
  {
    var sh := s.shards[i];
    var done := if failsAt < |sh.order| then sh.order[..failsAt] else sh.order;
    DeleteAllKeeps(sh, done);
    ClearEmpties(sh, Mode.WriteThrough);
    forall k | k in Elems(done) ensures c.route(k) == i {
      assert Matches(c, s, i, k);
    }
    ShrinkStep(c, s, Do(c, s, Wipe(i, failsAt)), i, Elems(done));
  }

  lemma StepCoherent(c: Config, s: State, step: Step)
    requires Coherent(c, s) && Enabled(c, step)
    ensures Coherent(c, Do(c, s, step))
  {
    var s' := Do(c, s, step);
    assert s.source == s.source - {};
    match step
    case Write(k, v, ttl, now, works) =>
      if works { WriteStep(c, s, k, v, ttl, now); } else { ShrinkStep(c, s, s', c.route(k), {}); }
    case Erase(k, works) => if works { ShrinkStep(c, s, s', c.route(k), {k}); }
    case Wipe(i, failsAt) => WipeStep(c, s, i, failsAt);
    case Look(k, touch, now) =>
      ReadOk(s.shards[c.route(k)], k, touch, now);
      ShrinkStep(c, s, s', c.route(k), {});
    case Inspect(k, now) => ShrinkStep(c, s, s', c.route(k), {});
    case Sweep(i, now) => ShrinkStep(c, s, s', i, {});
  }

  ghost function Steps(c: Config): (State, Step, State) -> bool {
    (s, step, s') => Shaped(c, s) && Enabled(c, step) && s' == Do(c, s, step)
  }

  ghost function AlwaysCoherent(c: Config): State -> bool {
    s => Coherent(c, s)
  }

  /**
    In every state a write-through cache can reach from empty shards, including after source
    failures in a put, a delete or midway through a clear, each cached value is the source's.
   */
  lemma CacheMatchesSource(c: Config, r: Run<State, Step>, capacities: seq<nat>, kind: Kind, i: nat, k: Key)
    requires ValidConfig(c) && IsRun(Steps(c), r) && |capacities| == c.shardCount
    requires forall n :: 0 <= n < |capacities| ==> capacities[n] >= 1
    requires |r.states[0].shards| == c.shardCount
    requires forall n :: 0 <= n < c.shardCount ==> r.states[0].shards[n] == NewShard(capacities[n], kind)
    requires i < |Final(r).shards| && k in Final(r).shards[i].entries
    ensures k in Final(r).source && Final(r).source[k] == Final(r).shards[i].entries[k].value
  {
    forall s, step, s' | Coherent(c, s) && Steps(c)(s, step, s') ensures Coherent(c, s') {
      StepCoherent(c, s, step);
    }
    Invariance(Steps(c), AlwaysCoherent(c), r, |r.steps|);
    assert Matches(c, Final(r), i, k);
  }
}
