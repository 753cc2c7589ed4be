/** What a reload does to the order in which keys are evicted. */
module ReloadOrder {
  import opened Prelude
  import opened Policies
  import opened Shards
  import opened Capacity
  import opened ShardRuns
  import opened EvictionOrder
  import opened StateFile

  lemma {:induction false} RemoveAllOrder(sh: Shard, ks: seq<Key>, keep: set<Key>)
    requires forall k :: k in sh.order ==> (k in keep <==> k !in ks)
    ensures RemoveAll(sh, ks, Expire).order == Keep(sh.order, keep)
    decreases |ks|
  {
    if ks == [] {
      KeepAll(sh.order, keep);
    } else {
      assert forall x :: x in ks <==> x == ks[0] || x in ks[1..];
      RemoveAllOrder(Remove(sh, ks[0], Expire), ks[1..], keep);
      KeepWithout(sh.order, ks[0], keep);
      KeepAgree(sh.order, keep, keep - {ks[0]});
    }
  }

  /** A save removes the expired entries, and the rest stays in order. */
  lemma SavedOrder(sh: Shard, now: real)
    requires Tracked(sh)
    ensures Tracked(ExpireAll(sh, now)) && ExpireAll(sh, now).order == Kept(sh, now)
    ensures SameKeys(Kept(sh, now), ExpireAll(sh, now).policy.order) && NoDup(Kept(sh, now))
  {
    RemoveAllOrder(sh, ExpiredKeys(sh, now), Unexpired(sh, now));
  }

  lemma RebuiltEvictions(sh: Shard, now: real, sh': Shard, at: real)
    requires Rebuilt(sh, now, Kept(sh, now), sh', at)
    ensures Evictions(sh'.policy) == Kept(sh, now)
  {
    ListedOrder(sh'.policy);
  }

  /** The shard `i` of a cache that was saved and reloaded. */
  function Again(shards: seq<Shard>, clock: seq<real>, route: Key -> nat, c: Setup, i: nat): Shard
    requires |clock| == |shards| && i < |shards| && forall k :: route(k) < |shards|
  {
    Loaded(NewShards(Capacities(shards), c.kind), Saved(shards, clock), route, c)[i]
  }

  /**
    After a reload every policy evicts in backend order.  So the eviction order a save left
    is restored if and only if no key comes before another in the backend that the policy
    would have evicted sooner; that is always so under FIFO, and under LRU exactly when the
    recency order was the backend order.
   */
  lemma EvictionOrderAfterReload(shards: seq<Shard>, clock: seq<real>, route: Key -> nat, c: Setup, i: nat)
    requires |clock| == |shards| && Sorted(shards, route, c.kind) && i < |shards|
    ensures var before := ExpireAll(shards[i], clock[i]).policy;
            var after := Again(shards, clock, route, c, i).policy;
            var kept := Kept(shards[i], clock[i]);
            && SameKeys(kept, before.order)
            && Evictions(after) == kept
            && (Evictions(after) == Evictions(before) <==> InOrder(before, kept))
            && (c.kind.FIFO? ==> Evictions(after) == Evictions(before))
            && (c.kind.LRU? ==> (Evictions(after) == Evictions(before) <==> before.order == kept))
  {
    var sh, now := shards[i], clock[i];
    StateRoundTrip(shards, clock, route, c);
    RebuiltEvictions(sh, now, Again(shards, clock, route, c, i), c.at);
    SavedOrder(sh, now);
    var before := ExpireAll(sh, now).policy;
    EvictionsIffInOrder(before, Kept(sh, now));
    if !c.kind.LFU? { ListedOrder(before); }
  }

  // ---------------------------------------------------------------- two caches that are reordered

  lemma ReadKeeps(sh: Shard, k: Key)
    requires ShardOk(sh) && k in sh.entries && sh.entries[k].expiresAt == None
    ensures var sh' := Read(sh, k, true, 0.0).1;
            && ShardOk(sh') && sh'.order == sh.order && sh'.policy == OnGet(sh.policy, k) && sh'.capacity == sh.capacity
            && sh'.entries.Keys == sh.entries.Keys
            && forall j :: j in sh.entries ==> sh'.entries[j].expiresAt == sh.entries[j].expiresAt
  {
    ReadOk(sh, k, true, 0.0);
  }

  function FirstOf(kind: Kind, a: Key, v: Value): Shard {
    Put(NewShard(2, kind), a, v, NoExpiry, 0.0, CacheOnly, None)
  }

  /** Put `a`, put `b`, get `a`. */
  function PutPutGet(kind: Kind, a: Key, b: Key, v: Value): Shard {
    Read(Put(FirstOf(kind, a, v), b, v, NoExpiry, 0.0, CacheOnly, None), a, true, 0.0).1
  }

  /** Put `a`, get `a`, put `b`. */
  function PutGetPut(kind: Kind, a: Key, b: Key, v: Value): Shard {
    Put(Read(FirstOf(kind, a, v), a, true, 0.0).1, b, v, NoExpiry, 0.0, CacheOnly, None)
  }

  /** Both keys are there for good, `a` first. */
  ghost predicate TwoKeys(sh: Shard, a: Key, b: Key) {
    && ShardOk(sh) && sh.order == [a, b]
    && forall k :: k in sh.entries ==> sh.entries[k].expiresAt == None
  }

  lemma FirstPut(kind: Kind, a: Key, v: Value)
    ensures var sh := FirstOf(kind, a, v);
            && ShardOk(sh) && sh.capacity == 2 && sh.order == [a] && sh.entries.Keys == {a}
            && sh.entries[a].expiresAt == None && sh.policy == OnPut(Policies.Fresh(kind), a)
  {
    RoomyPut(NewShard(2, kind), a, v, NoExpiry, 0.0, CacheOnly, None);
    assert [] + [a] == [a];
  }

  lemma SecondPut(sh: Shard, a: Key, b: Key, v: Value, sh': Shard)
    requires ShardOk(sh) && sh.capacity == 2 && sh.order == [a] && a != b
    requires forall k :: k in sh.entries ==> sh.entries[k].expiresAt == None
    requires sh' == Put(sh, b, v, NoExpiry, 0.0, CacheOnly, None)
    ensures TwoKeys(sh', a, b) && sh'.policy == OnPut(sh.policy, b)
  {
    RoomyPut(sh, b, v, NoExpiry, 0.0, CacheOnly, None);
    assert sh'.order == sh.order + [b] && sh'.policy == OnPut(sh.policy, b);
    assert sh'.entries.Keys == sh.entries.Keys + {b} && sh'.entries[b].expiresAt == None;
    assert [a] + [b] == [a, b];
  }

  lemma LruShard(a: Key, b: Key, v: Value)
    requires a != b
    ensures TwoKeys(PutPutGet(LRU, a, b, v), a, b) && PutPutGet(LRU, a, b, v).policy == Lru([b, a])
  {
    var second := Put(FirstOf(LRU, a, v), b, v, NoExpiry, 0.0, CacheOnly, None);
    FirstPut(LRU, a, v);
    SecondPut(FirstOf(LRU, a, v), a, b, v, second);
    ReadKeeps(second, a);
    TouchedLru(a, b);
  }

  lemma TouchedLru(a: Key, b: Key)
    requires a != b
    ensures OnGet(OnPut(OnPut(Policies.Fresh(LRU), a), b), a) == Lru([b, a])
  {
    assert Without([], a) + [a] == [a];
    assert Without([a], b) + [b] == [a, b];
    assert [a, b][1..] == [b] && Without([b], a) == [b];
    assert Without([a, b], a) + [a] == [b, a];
  }

  lemma LfuShard(a: Key, b: Key, v: Value)
    requires a != b
    ensures TwoKeys(PutGetPut(LFU, a, b, v), a, b)
    ensures PutGetPut(LFU, a, b, v).policy == Lfu([a, b], map[a := 2, b := 1])
  {
    var second := Read(FirstOf(LFU, a, v), a, true, 0.0).1;
    FirstPut(LFU, a, v);
    ReadKeeps(FirstOf(LFU, a, v), a);
    SecondPut(second, a, b, v, PutGetPut(LFU, a, b, v));
    TouchedLfu(a, b);
  }

  lemma TouchedLfu(a: Key, b: Key)
    requires a != b
    ensures OnPut(OnGet(OnPut(Policies.Fresh(LFU), a), a), b) == Lfu([a, b], map[a := 2, b := 1])
  {
    assert [] + [a] == [a] && Without([a], a) + [a] == [a] && [a] + [b] == [a, b];
    assert map[a := 1][a := 2][b := 1] == map[a := 2, b := 1];
  }

  /** Nothing expires, so a save changes nothing. */
  lemma NothingExpires(sh: Shard, a: Key, b: Key, now: real)
    requires TwoKeys(sh, a, b)
    ensures ExpireAll(sh, now) == sh && Kept(sh, now) == [a, b]
  {
    HeadIsMember(ExpiredKeys(sh, now));
    KeepAll(sh.order, Unexpired(sh, now));
  }

  lemma NotInOrder(p: Policy, a: Key, b: Key)
    requires a != b && (p == Lru([b, a]) || p == Lfu([a, b], map[a := 2, b := 1]))
    ensures SameKeys([a, b], p.order) && !InOrder(p, [a, b])
  {
    assert p.Lru? ==> !Sooner(p, [a, b][0], [a, b][1]);
    assert p.Lfu? ==> !Sooner(p, [a, b][0], [a, b][1]);
  }

  /** The shard as a whole cache, saved and reloaded at any times. */
  lemma Reordered(sh: Shard, a: Key, b: Key, c: Setup, now: real)
    requires TwoKeys(sh, a, b) && a != b && KindOf(sh.policy) == c.kind
    requires sh.policy == Lru([b, a]) || sh.policy == Lfu([a, b], map[a := 2, b := 1])
    ensures Evictions(Again([sh], [now], (_: Key) => 0, c, 0).policy) == [a, b] != Evictions(sh.policy)
  {
    NothingExpires(sh, a, b, now);
    NotInOrder(sh.policy, a, b);
    EvictionOrderAfterReload([sh], [now], (_: Key) => 0, c, 0);
  }

  /** An LRU cache whose eviction order a reload turns round. */
  lemma LruForgetsRecency(a: Key, b: Key, v: Value, c: Setup, now: real) returns (sh: Shard)
    requires a != b && c.kind == LRU
    ensures Evictions(Again([sh], [now], (_: Key) => 0, c, 0).policy) == [a, b] != Evictions(sh.policy)
    ensures sh == PutPutGet(LRU, a, b, v)
  {
    sh := PutPutGet(LRU, a, b, v);
    LruShard(a, b, v);
    Reordered(sh, a, b, c, now);
  }

  /** An LFU cache whose eviction order a reload turns round, although its keys were last used in backend order. */
  lemma LfuForgetsFrequency(a: Key, b: Key, v: Value, c: Setup, now: real) returns (sh: Shard)
    requires a != b && c.kind == LFU
    ensures Evictions(Again([sh], [now], (_: Key) => 0, c, 0).policy) == [a, b] != Evictions(sh.policy)
    ensures sh == PutGetPut(LFU, a, b, v)
  {
    sh := PutGetPut(LFU, a, b, v);
    LfuShard(a, b, v);
    Reordered(sh, a, b, c, now);
  }
}
