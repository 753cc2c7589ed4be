/** The state file of the command line: a cache is saved as records and rebuilt from them. */
module StateFile {
  import opened Prelude
  import opened Policies
  import opened Shards
  import opened Capacity
  import opened ShardRuns
  import opened CacheShards

  /** A field of a record: what `float` accepts, an explicit null, or anything else. */
  datatype Field = Null | Number(number: real) | Garbage

  /** `None` is an absent field; a hit count that is no integer is absent too. */
  datatype Item = Item(
    key: Key,
    value: Value,
    ttlRemaining: Option<Field>,
    expiresWall: Option<Field>,
    hitCount: Option<int>)

  datatype Lifetime = Skip | Lasts(ttl: TtlArg)

  function Remaining(seconds: real): Lifetime {
    if seconds <= 0.0 then Skip else Lasts(Seconds(seconds))
  }

  /** The ttl a record is reloaded with; whatever the record says, `put` accepts it. */
  function TtlFromItem(item: Item, wallNow: real): (r: Lifetime)
    ensures r.Lasts? ==> ValidTtl(r.ttl) && !r.ttl.Unset?
  {
    match item.ttlRemaining
    case Some(Null) => Lasts(NoExpiry)
    case Some(Number(n)) => Remaining(n)
    case Some(Garbage) => Skip
    case None =>
      match item.expiresWall
      case Some(Number(n)) => Remaining(n - wallNow)
      case Some(Garbage) => Skip
      case Some(Null) => Lasts(NoExpiry)
      case None => Lasts(NoExpiry)
  }

  // ---------------------------------------------------------------- saving

  function ItemOf(snapshot: Snapshot): Item {
    Item(snapshot.key, snapshot.entry.value,
         Some(match snapshot.remaining case None => Null case Some(t) => Number(t)),
         None, Some(snapshot.entry.hitCount))
  }

  function Items(snapshots: seq<Snapshot>): (r: seq<Item>)
    ensures |r| == |snapshots| && forall i :: 0 <= i < |r| ==> r[i] == ItemOf(snapshots[i])
  {
    seq(|snapshots|, i requires 0 <= i < |snapshots| => ItemOf(snapshots[i]))
  }

  /** The records of all shards in order; shard `i` is read at `clock[i]`. */
  function Saved(shards: seq<Shard>, clock: seq<real>): seq<Item>
    requires |shards| == |clock|
  {
    if shards == [] then []
    else
      var last := |shards| - 1;
      Saved(shards[..last], clock[..last]) + Items(Dump(shards[last], clock[last]))
  }

  function Dead(sh: Shard, now: real): set<Key> {
    set k | k in sh.entries && Expired(sh.entries[k], now)
  }

  /** `dump` has the keys `ks` of the shard still ahead of it. */
  ghost predicate Dumping(before: Shard, sh: Shard, ks: seq<Key>, snapshots: seq<Snapshot>, now: real) {
    && NoDup(ks)
    && (forall k :: k in ks ==> k in before.entries && Lookup(sh, k) == Some(before.entries[k]))
    && snapshots + Snapshots(before, Keep(ks, Unexpired(before, now)), now) == Dump(before, now)
    && RemoveAll(sh, Keep(ks, Dead(before, now)), Expire) == ExpireAll(before, now)
  }

  lemma DumpExpired(before: Shard, sh: Shard, ks: seq<Key>, snapshots: seq<Snapshot>, now: real)
    requires ks != [] && Dumping(before, sh, ks, snapshots, now) && Expired(before.entries[ks[0]], now)
    ensures Dumping(before, Remove(sh, ks[0], Expire), ks[1..], snapshots, now)
  {
    RemoveHead(sh, ks[0], Keep(ks[1..], Dead(before, now)));
    StillThere(before, sh, ks);
  }

  lemma RemoveHead(sh: Shard, k: Key, ks: seq<Key>)
    ensures RemoveAll(sh, [k] + ks, Expire) == RemoveAll(Remove(sh, k, Expire), ks, Expire)
  {
    assert ([k] + ks)[1..] == ks;
  }

  lemma StillThere(before: Shard, sh: Shard, ks: seq<Key>)
    requires ks != [] && NoDup(ks)
    requires forall k :: k in ks ==> k in before.entries && Lookup(sh, k) == Some(before.entries[k])
    ensures forall k :: k in ks[1..] ==>
              k in before.entries && Lookup(Remove(sh, ks[0], Expire), k) == Some(before.entries[k])
  {
    forall k | k in ks[1..]
      ensures k in before.entries && Lookup(Remove(sh, ks[0], Expire), k) == Some(before.entries[k])
    {
      assert Lookup(sh, k) == Some(before.entries[k]);
    }
  }

  lemma SnapshotsCons(sh: Shard, k: Key, ks: seq<Key>, now: real)
    requires k in sh.entries && forall j :: j in ks ==> j in sh.entries
    ensures Snapshots(sh, [k] + ks, now) == [SnapshotOf(k, sh.entries[k], now)] + Snapshots(sh, ks, now)
  {
  }

  lemma DumpLive(before: Shard, sh: Shard, ks: seq<Key>, snapshots: seq<Snapshot>, now: real)
    requires ks != [] && Dumping(before, sh, ks, snapshots, now) && !Expired(before.entries[ks[0]], now)
    ensures Dumping(before, sh, ks[1..], snapshots + [SnapshotOf(ks[0], before.entries[ks[0]], now)], now)
  {
    var head, tail := SnapshotOf(ks[0], before.entries[ks[0]], now), Keep(ks[1..], Unexpired(before, now));
    calc {
      Dump(before, now);
      snapshots + Snapshots(before, Keep(ks, Unexpired(before, now)), now);
      { SnapshotsCons(before, ks[0], tail, now); }
      snapshots + ([head] + Snapshots(before, tail, now));
      (snapshots + [head]) + Snapshots(before, tail, now);
    }
  }

  /** The backend lists its entries, each once. */
  predicate Listed(sh: Shard) {
    NoDup(sh.order) && forall k :: k in sh.order ==> k in sh.entries
  }

  lemma DumpStart(sh: Shard, now: real)
    requires Listed(sh)
    ensures Dumping(sh, sh, sh.order, [], now)
  {
  }

  lemma DumpNext(before: Shard, sh: Shard, ks: seq<Key>, snapshots: seq<Snapshot>, now: real)
    requires ks != [] && Dumping(before, sh, ks, snapshots, now)
    ensures ks[0] in before.entries && ks[0] in sh.entries && sh.entries[ks[0]] == before.entries[ks[0]]
  {
    assert Lookup(sh, ks[0]) == Some(before.entries[ks[0]]);
  }

  lemma DumpDone(before: Shard, sh: Shard, snapshots: seq<Snapshot>, now: real)
    requires Dumping(before, sh, [], snapshots, now)
    ensures snapshots == Dump(before, now) && sh == ExpireAll(before, now)
  {
  }

  method DumpShard(shard: CacheShard, now: real) returns (snapshots: seq<Snapshot>)
    requires Listed(shard.View())
    modifies shard
    ensures snapshots == Dump(old(shard.View()), now)
    ensures shard.View() == ExpireAll(old(shard.View()), now)
  {
    ghost var before := shard.View();
    var keys := shard.order;
    snapshots := [];
    DumpStart(before, now);
    var i := 0;
    while i < |keys|
      invariant 0 <= i <= |keys|
      invariant Dumping(before, shard.View(), keys[i..], snapshots, now)
    {
      var k := keys[i];
      assert keys[i..][0] == k && keys[i..][1..] == keys[i + 1..];
      DumpNext(before, shard.View(), keys[i..], snapshots, now);
      if Expired(shard.entries[k], now) {
        DumpExpired(before, shard.View(), keys[i..], snapshots, now);
        var _ := shard.RemoveEntry(k, Expire);
      } else {
        DumpLive(before, shard.View(), keys[i..], snapshots, now);
        snapshots := snapshots + [SnapshotOf(k, shard.entries[k], now)];
      }
      i := i + 1;
    }
    DumpDone(before, shard.View(), snapshots, now);
  }

  // ---------------------------------------------------------------- loading

  function LoadInto(sh: Shard, item: Item, at: real, wall: real, mode: Mode, defaultTtl: Option<real>): Shard {
    match TtlFromItem(item, wall)
    case Skip => sh
    case Lasts(ttl) =>
      var stored := Put(sh, item.key, item.value, ttl, at, mode, defaultTtl);
      if item.hitCount.Some? && item.hitCount.value > 0
      then RestoreHits(stored, item.key, item.hitCount.value) else stored
  }

  /** What the clocks show while a cache is rebuilt, and how the cache is set up. */
  datatype Setup = Setup(kind: Kind, mode: Mode, defaultTtl: Option<real>, at: real, wall: real)

  function LoadOne(shards: seq<Shard>, item: Item, i: nat, c: Setup): (r: seq<Shard>)
    requires i < |shards|
    ensures |r| == |shards|
  {
    shards[i := LoadInto(shards[i], item, c.at, c.wall, c.mode, c.defaultTtl)]
  }

  /** The shards after all records were put back. */
  function Loaded(shards: seq<Shard>, items: seq<Item>, route: Key -> nat, c: Setup): (r: seq<Shard>)
    requires forall k :: route(k) < |shards|
    ensures |r| == |shards|
  {
    if items == [] then shards
    else
      var last := |items| - 1;
      LoadOne(Loaded(shards, items[..last], route, c), items[last], route(items[last].key), c)
  }

  function NewShards(capacities: seq<nat>, kind: Kind): (r: seq<Shard>)
    ensures |r| == |capacities| && forall i :: 0 <= i < |r| ==> r[i] == NewShard(capacities[i], kind)
  {
    seq(|capacities|, i requires 0 <= i < |capacities| => NewShard(capacities[i], kind))
  }

  method LoadItem(shard: CacheShard, item: Item, c: Setup)
    modifies shard
    ensures shard.View() == LoadInto(old(shard.View()), item, c.at, c.wall, c.mode, c.defaultTtl)
  {
    var ttl := TtlFromItem(item, c.wall);
    if ttl.Skip? {
      return;
    }
    var _ := shard.Put(item.key, item.value, ttl.ttl, c.at, c.mode, c.defaultTtl);
    if item.hitCount.Some? && item.hitCount.value > 0 {
      shard.RestoreHits(item.key, item.hitCount.value);
    }
  }

  // ---------------------------------------------------------------- the round trip

  /** The keys a save keeps, in backend order. */
  function Kept(sh: Shard, now: real): (r: seq<Key>)
    ensures forall k :: k in r ==> k in sh.entries && !Expired(sh.entries[k], now)
  {
    Keep(sh.order, Unexpired(sh, now))
  }

  /** `e'` at `at` is what `e` was at `now`: its value, its hit count and the time it has left. */
  predicate SameLife(e: Entry, now: real, e': Entry, at: real) {
    && e'.value == e.value && e'.hitCount == e.hitCount
    && (e'.expiresAt.Some? <==> e.expiresAt.Some?)
    && (e.expiresAt.Some? ==> e'.expiresAt.value - at == e.expiresAt.value - now)
  }

  /** `sh'` holds exactly the keys `ks` of `sh`, in that order, with the lives they had at `now`. */
  ghost predicate Rebuilt(sh: Shard, now: real, ks: seq<Key>, sh': Shard, at: real)
    requires forall k :: k in ks ==> k in sh.entries
  {
    && ShardOk(sh') && sh'.order == ks && sh'.policy.order == ks
    && (forall k :: k in ks ==> SameLife(sh.entries[k], now, sh'.entries[k], at))
    && (sh'.policy.Lfu? ==> forall k :: k in ks ==> Freq(sh'.policy.freq, k) == 1)
    && sh'.stats.evictions == 0 && sh'.stats.expirations == 0
  }

  function ItemAt(sh: Shard, k: Key, now: real): Item
    requires k in sh.entries
  {
    ItemOf(SnapshotOf(k, sh.entries[k], now))
  }

  lemma HitsRestored(sh: Shard, k: Key, hits: nat)
    requires ShardOk(sh) && k in sh.entries
    ensures var sh' := RestoreHits(sh, k, hits);
            && ShardOk(sh')
            && sh' == sh.(entries := sh'.entries) && sh'.entries.Keys == sh.entries.Keys
            && (forall j :: j in sh.entries && j != k ==> sh'.entries[j] == sh.entries[j])
            && sh'.entries[k] == sh.entries[k].(hitCount := hits)
            && (hits == sh.entries[k].hitCount ==> sh' == sh)
  {
    if hits == sh.entries[k].hitCount {
      assert RestoreHits(sh, k, hits).entries == sh.entries;
    }
  }

  /** The record of a live entry is never skipped, and its ttl sets the time it has left. */
  lemma LifetimeOf(sh: Shard, k: Key, now: real, c: Setup)
    requires k in sh.entries && !Expired(sh.entries[k], now)
    ensures var life := TtlFromItem(ItemAt(sh, k, now), c.wall);
            && life.Lasts?
            && var deadline := ResolveTtl(None, life.ttl, c.at, c.defaultTtl).1;
               && (deadline.Some? <==> sh.entries[k].expiresAt.Some?)
               && (deadline.Some? ==> deadline.value - c.at == sh.entries[k].expiresAt.value - now)
  {
  }

  function Reloaded(sh: Shard, k: Key, now: real, sh': Shard, c: Setup): Shard
    requires k in sh.entries
  {
    LoadInto(sh', ItemAt(sh, k, now), c.at, c.wall, c.mode, c.defaultTtl)
  }

  lemma ReloadedKey(sh: Shard, k: Key, now: real, sh': Shard, c: Setup)
    requires ShardOk(sh') && k !in sh'.entries && |sh'.order| < sh'.capacity
    requires k in sh.entries && !Expired(sh.entries[k], now)
    ensures var r := Reloaded(sh, k, now, sh', c);
            && ShardOk(r) && r.capacity == sh'.capacity
            && r.order == sh'.order + [k] && r.policy.order == sh'.policy.order + [k]
            && (forall j :: j in sh'.entries ==> j in r.entries && r.entries[j] == sh'.entries[j])
            && k in r.entries && SameLife(sh.entries[k], now, r.entries[k], c.at)
            && r.stats == sh'.stats.(puts := sh'.stats.puts + 1)
            && r.policy == OnPut(sh'.policy, k)
  {
    var item := ItemAt(sh, k, now);
    LifetimeOf(sh, k, now, c);
    var ttl := TtlFromItem(item, c.wall).ttl;
    RoomyPut(sh', k, item.value, ttl, c.at, c.mode, c.defaultTtl);
    var stored := Put(sh', k, item.value, ttl, c.at, c.mode, c.defaultTtl);
    HitsRestored(stored, k, sh.entries[k].hitCount);
    assert Reloaded(sh, k, now, sh', c) == RestoreHits(stored, k, sh.entries[k].hitCount);
  }

  /** Putting back the record of one more key. */
  lemma RebuildOne(sh: Shard, now: real, ks: seq<Key>, k: Key, sh': Shard, c: Setup)
    requires forall j :: j in ks ==> j in sh.entries
    requires k in sh.entries && !Expired(sh.entries[k], now) && k !in ks
    requires Rebuilt(sh, now, ks, sh', c.at) && |ks| < sh'.capacity
    ensures Rebuilt(sh, now, ks + [k], Reloaded(sh, k, now, sh', c), c.at)
    ensures Reloaded(sh, k, now, sh', c).capacity == sh'.capacity
  {
    ReloadedKey(sh, k, now, sh', c);
  }

  /** One shard rebuilt from the records of its kept keys. */
  function LoadedShard(sh: Shard, items: seq<Item>, c: Setup): Shard {
    if items == [] then sh
    else
      LoadInto(LoadedShard(sh, items[..|items| - 1], c), items[|items| - 1], c.at, c.wall, c.mode, c.defaultTtl)
  }

  /** The records of the keys `ks`. */
  function Records(sh: Shard, ks: seq<Key>, now: real): (r: seq<Item>)
    requires forall k :: k in ks ==> k in sh.entries
    ensures |r| == |ks| && forall i :: 0 <= i < |ks| ==> r[i] == ItemAt(sh, ks[i], now)
  {
    Items(Snapshots(sh, ks, now))
  }

  lemma RecordsSnoc(sh: Shard, ks: seq<Key>, k: Key, now: real)
    requires k in sh.entries && forall j :: j in ks ==> j in sh.entries
    ensures Records(sh, ks + [k], now) == Records(sh, ks, now) + [ItemAt(sh, k, now)]
  {
  }

  lemma LoadedSnoc(sh: Shard, items: seq<Item>, item: Item, c: Setup)
    ensures LoadedShard(sh, items + [item], c)
            == LoadInto(LoadedShard(sh, items, c), item, c.at, c.wall, c.mode, c.defaultTtl)
  {
    assert (items + [item])[..|items|] == items;
  }

  lemma {:induction false} RebuildShard(sh: Shard, now: real, ks: seq<Key>, capacity: nat, c: Setup)
    requires NoDup(ks) && |ks| <= capacity && capacity >= 1
    requires forall k :: k in ks ==> k in sh.entries && !Expired(sh.entries[k], now)
    ensures var sh' := LoadedShard(NewShard(capacity, c.kind), Records(sh, ks, now), c);
            Rebuilt(sh, now, ks, sh', c.at) && sh'.capacity == capacity
    decreases |ks|
  {
    if ks != [] {
      var front, k := ks[..|ks| - 1], ks[|ks| - 1];
      assert ks == front + [k];
      NoDupSnoc(front, k);
      RebuildShard(sh, now, front, capacity, c);
      RebuildOne(sh, now, front, k, LoadedShard(NewShard(capacity, c.kind), Records(sh, front, now), c), c);
      RecordsSnoc(sh, front, k, now);
      LoadedSnoc(NewShard(capacity, c.kind), Records(sh, front, now), ItemAt(sh, k, now), c);
    }
  }

  // Records of other shards do not disturb a shard.

  predicate For(items: seq<Item>, route: Key -> nat, i: nat) {
    forall j :: 0 <= j < |items| ==> route(items[j].key) == i
  }

  lemma {:induction false} LoadedElsewhere(shards: seq<Shard>, items: seq<Item>, more: seq<Item>, route: Key -> nat,
                                           c: Setup, i: nat)
    requires forall k :: route(k) < |shards|
    requires For(more, route, i) && i < |shards|
    ensures var before := Loaded(shards, items, route, c);
            Loaded(shards, items + more, route, c) == before[i := LoadedShard(before[i], more, c)]
    decreases |more|
  {
    if more == [] {
      assert items + more == items;
    } else {
      var front, item := more[..|more| - 1], more[|more| - 1];
      assert more == front + [item] && items + more == (items + front) + [item];
      LoadedElsewhere(shards, items, front, route, c, i);
      LoadedNext(shards, items + front, item, route, c);
      LoadedSnoc(Loaded(shards, items, route, c)[i], front, item, c);
    }
  }

  lemma LoadedNext(shards: seq<Shard>, items: seq<Item>, item: Item, route: Key -> nat, c: Setup)
    requires forall k :: route(k) < |shards|
    ensures Loaded(shards, items + [item], route, c) ==
              LoadOne(Loaded(shards, items, route, c), item, route(item.key), c)
  {
    assert (items + [item])[..|items|] == items;
  }

  /** Shards as a cache keeps them: sound, of one kind, each holding keys routed to it. */
  ghost predicate Sorted(shards: seq<Shard>, route: Key -> nat, kind: Kind) {
    && (forall k :: route(k) < |shards|)
    && forall i :: 0 <= i < |shards| ==>
         && ShardOk(shards[i]) && KindOf(shards[i].policy) == kind
         && forall k :: k in shards[i].entries ==> route(k) == i
  }

  function Capacities(shards: seq<Shard>): (r: seq<nat>)
    ensures |r| == |shards| && forall i :: 0 <= i < |r| ==> r[i] == shards[i].capacity
  {
    seq(|shards|, i requires 0 <= i < |shards| => shards[i].capacity)
  }

  /** Shard `i` alone, saved and rebuilt. */
  function RoundTripped(sh: Shard, now: real, c: Setup): Shard {
    LoadedShard(NewShard(sh.capacity, c.kind), Items(Dump(sh, now)), c)
  }

  /** The shards when the records of the first `n` shards are back. */
  function Reached(shards: seq<Shard>, clock: seq<real>, c: Setup, n: nat): (r: seq<Shard>)
    requires |clock| == |shards|
    ensures |r| == |shards|
    ensures forall i :: 0 <= i < |r| ==>
              r[i] == if i < n then RoundTripped(shards[i], clock[i], c) else NewShard(shards[i].capacity, c.kind)
  {
    seq(|shards|, i requires 0 <= i < |shards| =>
      if i < n then RoundTripped(shards[i], clock[i], c) else NewShard(shards[i].capacity, c.kind))
  }

  lemma ReachedStep(shards: seq<Shard>, clock: seq<real>, c: Setup, n: nat)
    requires |clock| == |shards| && 0 < n <= |shards|
    ensures var before := Reached(shards, clock, c, n - 1);
            Reached(shards, clock, c, n)
            == before[n - 1 := LoadedShard(before[n - 1], Items(Dump(shards[n - 1], clock[n - 1])), c)]
  {
  }

  lemma SavedStep(shards: seq<Shard>, clock: seq<real>, n: nat)
    requires |clock| == |shards| && 0 < n <= |shards|
    ensures Saved(shards[..n], clock[..n]) ==
              Saved(shards[..n - 1], clock[..n - 1]) + Items(Dump(shards[n - 1], clock[n - 1]))
  {
    assert shards[..n][..n - 1] == shards[..n - 1] && clock[..n][..n - 1] == clock[..n - 1];
  }

  lemma DumpIsFor(sh: Shard, now: real, route: Key -> nat, i: nat)
    requires forall k :: k in sh.entries ==> route(k) == i
    ensures For(Items(Dump(sh, now)), route, i)
  {
    var ks := Kept(sh, now);
    assert forall j :: 0 <= j < |ks| ==> ks[j] in ks;
  }

  lemma {:induction false} ReloadPrefix(shards: seq<Shard>, clock: seq<real>, route: Key -> nat, c: Setup, n: nat)
    requires |clock| == |shards| && Sorted(shards, route, c.kind) && n <= |shards|
    ensures Loaded(NewShards(Capacities(shards), c.kind), Saved(shards[..n], clock[..n]), route, c) ==
              Reached(shards, clock, c, n)
  {
    if n > 0 {
      ReloadPrefix(shards, clock, route, c, n - 1);
      SavedStep(shards, clock, n);
      ReachedStep(shards, clock, c, n);
      DumpIsFor(shards[n - 1], clock[n - 1], route, n - 1);
      LoadedElsewhere(NewShards(Capacities(shards), c.kind), Saved(shards[..n - 1], clock[..n - 1]),
                      Items(Dump(shards[n - 1], clock[n - 1])), route, c, n - 1);
    }
  }

  lemma ShardRoundTrip(sh: Shard, now: real, c: Setup)
    requires ShardOk(sh)
    ensures Rebuilt(sh, now, Kept(sh, now), RoundTripped(sh, now, c), c.at)
    ensures RoundTripped(sh, now, c).capacity == sh.capacity
  {
    KeepNoDup(sh.order, Unexpired(sh, now));
    KeepShorter(sh.order, Unexpired(sh, now));
    RebuildShard(sh, now, Kept(sh, now), sh.capacity, c);
    assert Records(sh, Kept(sh, now), now) == Items(Dump(sh, now));
  }

  /** A rebuilt shard saves to the records it was built from. */
  lemma RebuiltSavesTheSame(sh: Shard, now: real, sh': Shard, at: real)
    requires Rebuilt(sh, now, Kept(sh, now), sh', at)
    ensures Items(Dump(sh', at)) == Items(Dump(sh, now))
  {
    var ks := Kept(sh, now);
    forall k | k in ks ensures k in Unexpired(sh', at) && ItemAt(sh', k, at) == ItemAt(sh, k, now) {
      assert SameLife(sh.entries[k], now, sh'.entries[k], at);
    }
    KeepAll(ks, Unexpired(sh', at));
    assert forall i :: 0 <= i < |ks| ==> ks[i] in ks;
  }

  lemma {:induction false} SavedAgree(shards: seq<Shard>, clock: seq<real>, shards': seq<Shard>, clock': seq<real>)
    requires |shards| == |clock| == |shards'| == |clock'|
    requires forall i :: 0 <= i < |shards| ==> Items(Dump(shards'[i], clock'[i])) == Items(Dump(shards[i], clock[i]))
    ensures Saved(shards', clock') == Saved(shards, clock)
  {
    if shards != [] {
      var n := |shards| - 1;
      SavedAgree(shards[..n], clock[..n], shards'[..n], clock'[..n]);
    }
  }

  /**
    Saving a cache and reloading it under the same capacity, policy and shard count.  Every
    shard gets back exactly its unexpired keys, in backend order, with their values, hit
    counts and remaining lifetimes, and nothing is evicted.
   */
  lemma StateRoundTrip(shards: seq<Shard>, clock: seq<real>, route: Key -> nat, c: Setup)
    requires |clock| == |shards| && Sorted(shards, route, c.kind)
    ensures var loaded := Loaded(NewShards(Capacities(shards), c.kind), Saved(shards, clock), route, c);
            forall i :: 0 <= i < |shards| ==>
              && Rebuilt(shards[i], clock[i], Kept(shards[i], clock[i]), loaded[i], c.at)
              && loaded[i].capacity == shards[i].capacity
  {
    ReloadPrefix(shards, clock, route, c, |shards|);
    assert shards[..|shards|] == shards && clock[..|shards|] == clock;
    forall i | 0 <= i < |shards|
      ensures Rebuilt(shards[i], clock[i], Kept(shards[i], clock[i]), Reached(shards, clock, c, |shards|)[i], c.at)
      ensures Reached(shards, clock, c, |shards|)[i].capacity == shards[i].capacity
    {
      ShardRoundTrip(shards[i], clock[i], c);
    }
  }

  /** Saving the reloaded cache at once writes the same file again. */
  lemma SavingAgainChangesNothing(shards: seq<Shard>, clock: seq<real>, route: Key -> nat, c: Setup)
    requires |clock| == |shards| && Sorted(shards, route, c.kind)
    ensures var loaded := Loaded(NewShards(Capacities(shards), c.kind), Saved(shards, clock), route, c);
            Saved(loaded, seq(|shards|, _ => c.at)) == Saved(shards, clock)
  {
    var loaded := Loaded(NewShards(Capacities(shards), c.kind), Saved(shards, clock), route, c);
    StateRoundTrip(shards, clock, route, c);
    var later := seq(|shards|, _ => c.at);
    forall i | 0 <= i < |shards| ensures Items(Dump(loaded[i], later[i])) == Items(Dump(shards[i], clock[i])) {
      RebuiltSavesTheSame(shards[i], clock[i], loaded[i], c.at);
    }
    SavedAgree(shards, clock, loaded, later);
  }

  // ---------------------------------------------------------------- the two commands

  method AppendItems(items: seq<Item>, snapshots: seq<Snapshot>) returns (r: seq<Item>)
    ensures r == items + Items(snapshots)
  {
    r := items;
    var i := 0;
    while i < |snapshots|
      invariant 0 <= i <= |snapshots|
      invariant r == items + Items(snapshots[..i])
    {
      assert Items(snapshots[..i + 1]) == Items(snapshots[..i]) + [ItemOf(snapshots[i])];
      r := r + [ItemOf(snapshots[i])];
      i := i + 1;
    }
    assert snapshots[..i] == snapshots;
  }

  /** The shards once the first `n` of them are dumped. */
  function DumpedShards(shards: seq<Shard>, clock: seq<real>, n: nat): (r: seq<Shard>)
    requires |clock| == |shards|
    ensures |r| == |shards|
    ensures forall i :: 0 <= i < |r| ==> r[i] == if i < n then ExpireAll(shards[i], clock[i]) else shards[i]
  {
    seq(|shards|, i requires 0 <= i < |shards| => if i < n then ExpireAll(shards[i], clock[i]) else shards[i])
  }

  lemma DumpedStep(shards: seq<Shard>, clock: seq<real>, n: nat)
    requires |clock| == |shards| && n < |shards|
    ensures DumpedShards(shards, clock, n + 1) == DumpedShards(shards, clock, n)[n := ExpireAll(shards[n], clock[n])]
  {
  }

  method SaveCache(shards: seq<CacheShard>, clock: seq<real>) returns (items: seq<Item>)
    requires |clock| == |shards| && Separate(shards) && forall i :: 0 <= i < |shards| ==> Listed(shards[i].View())
    modifies shards
    ensures items == Saved(old(Views(shards)), clock)
    ensures Views(shards) == DumpedShards(old(Views(shards)), clock, |shards|)
  {
    ghost var before := Views(shards);
    items := [];
    var n := 0;
    while n < |shards|
      invariant 0 <= n <= |shards|
      invariant items == Saved(before[..n], clock[..n])
      invariant Views(shards) == DumpedShards(before, clock, n)
    {
      ghost var mid := Views(shards);
      assert mid[n] == shards[n].View() == before[n];
      var snapshots := DumpShard(shards[n], clock[n]);
      DumpedStep(before, clock, n);
      assert Views(shards) == mid[n := ExpireAll(before[n], clock[n])];
      items := AppendItems(items, snapshots);
      SavedStep(before, clock, n + 1);
      n := n + 1;
    }
    assert before[..n] == before && clock[..n] == clock;
  }

  method NewCache(capacities: seq<nat>, kind: Kind) returns (shards: seq<CacheShard>)
    ensures Separate(shards) && fresh(shards)
    ensures Views(shards) == NewShards(capacities, kind)
  {
    shards := [];
    while |shards| < |capacities|
      invariant |shards| <= |capacities| && Separate(shards) && fresh(shards)
      invariant forall i :: 0 <= i < |shards| ==> shards[i].View() == NewShard(capacities[i], kind)
    {
      var shard := new CacheShard(capacities[|shards|], kind);
      shards := shards + [shard];
    }
  }

  method LoadCache(capacities: seq<nat>, items: seq<Item>, route: Key -> nat, c: Setup)
    returns (shards: seq<CacheShard>)
    requires forall k :: route(k) < |capacities|
    ensures Separate(shards) && fresh(shards)
    ensures Views(shards) == Loaded(NewShards(capacities, c.kind), items, route, c)
  {
    shards := NewCache(capacities, c.kind);
    var n := 0;
    while n < |items|
      invariant 0 <= n <= |items|
      invariant Views(shards) == Loaded(NewShards(capacities, c.kind), items[..n], route, c)
    {
      ghost var before := Views(shards);
      var i := route(items[n].key);
      LoadItem(shards[i], items[n], c);
      assert items[..n + 1][..n] == items[..n];
      assert Views(shards) == LoadOne(before, items[n], i, c);
      n := n + 1;
    }
    assert items[..n] == items;
  }
}
