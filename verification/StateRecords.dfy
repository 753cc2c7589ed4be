/** What a reload makes of one record, whichever of its two lifetime fields it has. */
module StateRecords {
  import opened Prelude
  import opened Policies
  import opened Shards
  import opened Capacity
  import opened StateFile

  /** The shard has a free place for a key it does not hold. */
  ghost predicate Room(sh: Shard, k: Key) {
    ShardOk(sh) && k !in sh.entries && |sh.order| < sh.capacity
  }

  /** `sh'` is `sh` with the record as its newest entry, which lasts until `deadline`. */
  ghost predicate Added(sh: Shard, item: Item, deadline: Option<real>, sh': Shard) {
    && ShardOk(sh') && sh'.capacity == sh.capacity
    && sh'.order == sh.order + [item.key] && sh'.policy == OnPut(sh.policy, item.key)
    && (forall k :: k in sh.entries ==> k in sh'.entries && sh'.entries[k] == sh.entries[k])
    && item.key in sh'.entries
    && var entry := sh'.entries[item.key];
       && entry.value == item.value
       && entry.expiresAt == deadline
       && entry.hitCount == match item.hitCount case None => 0 case Some(h) => if h > 0 then h else 0
  }

  lemma LoadAdds(sh: Shard, item: Item, ttl: TtlArg, c: Setup, sh': Shard)
    requires Room(sh, item.key) && TtlFromItem(item, c.wall) == Lasts(ttl) && !ttl.Unset?
    requires sh' == LoadInto(sh, item, c.at, c.wall, c.mode, c.defaultTtl)
    ensures Added(sh, item, ResolveTtl(None, ttl, c.at, c.defaultTtl).1, sh')
  {
    var stored := Put(sh, item.key, item.value, ttl, c.at, c.mode, c.defaultTtl);
    RoomyPut(sh, item.key, item.value, ttl, c.at, c.mode, c.defaultTtl);
    if item.hitCount.Some? && item.hitCount.value > 0 {
      HitsRestored(stored, item.key, item.hitCount.value);
    }
  }

  lemma AddedChanges(sh: Shard, item: Item, deadline: Option<real>, sh': Shard)
    requires Added(sh, item, deadline, sh')
    ensures sh' != sh
  {
    assert |sh'.order| == |sh.order| + 1;
  }

  /** `n` seconds counted from the reload: the record is skipped if they are over. */
  ghost predicate LoadsFor(sh: Shard, item: Item, n: real, at: real, sh': Shard) {
    && (sh' == sh <==> n <= 0.0)
    && (n > 0.0 ==> Added(sh, item, Some(at + n), sh'))
  }

  /** A moment on the wall clock: the record is skipped if it has come. */
  ghost predicate LoadsUntil(sh: Shard, item: Item, w: real, c: Setup, sh': Shard) {
    && (sh' == sh <==> w <= c.wall)
    && (w > c.wall ==> Added(sh, item, Some(c.at + (w - c.wall)), sh'))
  }

  lemma SecondsLoad(sh: Shard, item: Item, n: real, c: Setup, sh': Shard)
    requires Room(sh, item.key) && TtlFromItem(item, c.wall) == Remaining(n)
    requires sh' == LoadInto(sh, item, c.at, c.wall, c.mode, c.defaultTtl)
    ensures LoadsFor(sh, item, n, c.at, sh')
  {
    if n > 0.0 {
      LoadAdds(sh, item, Seconds(n), c, sh');
      DeadlineOf(n, c);
      AddedChanges(sh, item, Some(c.at + n), sh');
    }
  }

  lemma DeadlineOf(n: real, c: Setup)
    requires n > 0.0
    ensures ResolveTtl(None, Seconds(n), c.at, c.defaultTtl).1 == Some(c.at + n)
  {
  }

  /** A remaining time is the time the entry gets; a wall time beside it is not looked at. */
  lemma RemainingTimeCounts(sh: Shard, item: Item, n: real, c: Setup)
    requires Room(sh, item.key) && item.ttlRemaining == Some(Number(n))
    ensures LoadsFor(sh, item, n, c.at, LoadInto(sh, item, c.at, c.wall, c.mode, c.defaultTtl))
  {
    SecondsLoad(sh, item, n, c, LoadInto(sh, item, c.at, c.wall, c.mode, c.defaultTtl));
  }

  /**
    A record whose only lifetime is a wall time is skipped exactly when that time has come;
    otherwise its entry expires as long after the reload as the wall time lies ahead.
   */
  lemma WallTimeCounts(sh: Shard, item: Item, w: real, c: Setup)
    requires Room(sh, item.key) && item.ttlRemaining.None? && item.expiresWall == Some(Number(w))
    ensures LoadsUntil(sh, item, w, c, LoadInto(sh, item, c.at, c.wall, c.mode, c.defaultTtl))
  {
    WallLoad(sh, item, w, w - c.wall, c, LoadInto(sh, item, c.at, c.wall, c.mode, c.defaultTtl));
  }

  lemma WallLoad(sh: Shard, item: Item, w: real, n: real, c: Setup, sh': Shard)
    requires Room(sh, item.key) && item.ttlRemaining.None? && item.expiresWall == Some(Number(w)) && n == w - c.wall
    requires sh' == LoadInto(sh, item, c.at, c.wall, c.mode, c.defaultTtl)
    ensures LoadsUntil(sh, item, w, c, sh')
  {
    WallTtl(item, w, c.wall, n);
    SecondsLoad(sh, item, n, c, sh');
    UntilIsFor(sh, item, w, n, c, sh');
  }

  lemma WallTtl(item: Item, w: real, wall: real, n: real)
    requires item.ttlRemaining.None? && item.expiresWall == Some(Number(w)) && n == w - wall
    ensures TtlFromItem(item, wall) == Remaining(n)
  {
  }

  lemma UntilIsFor(sh: Shard, item: Item, w: real, n: real, c: Setup, sh': Shard)
    requires LoadsFor(sh, item, n, c.at, sh') && n == w - c.wall
    ensures LoadsUntil(sh, item, w, c, sh')
  {
  }

  /** The first lifetime field that is there cannot be read as a number. */
  predicate Unreadable(item: Item) {
    item.ttlRemaining == Some(Garbage) || (item.ttlRemaining.None? && item.expiresWall == Some(Garbage))
  }

  /** The record is said to last for ever: a null, or no lifetime at all. */
  predicate Everlasting(item: Item) {
    || item.ttlRemaining == Some(Null)
    || (item.ttlRemaining.None? && (item.expiresWall.None? || item.expiresWall == Some(Null)))
  }

  lemma UnreadableIsSkipped(sh: Shard, item: Item, c: Setup)
    requires Unreadable(item)
    ensures LoadInto(sh, item, c.at, c.wall, c.mode, c.defaultTtl) == sh
  {
  }

  /** Such a record never expires, whatever default ttl the cache has. */
  lemma EverlastingStays(sh: Shard, item: Item, c: Setup)
    requires Room(sh, item.key) && Everlasting(item)
    ensures Added(sh, item, None, LoadInto(sh, item, c.at, c.wall, c.mode, c.defaultTtl))
  {
    LoadAdds(sh, item, NoExpiry, c, LoadInto(sh, item, c.at, c.wall, c.mode, c.defaultTtl));
  }

  /** The number of seconds a record has left at wall time `wall`, if a number decides. */
  function Left(item: Item, wall: real): Option<real> {
    match item.ttlRemaining
    case Some(Number(n)) => Some(n)
    case None => (match item.expiresWall case Some(Number(w)) => Some(w - wall) case _ => None)
    case _ => None
  }

  /** A record is skipped exactly when its lifetime is over or unreadable: nothing else is dropped. */
  lemma SkippedIff(sh: Shard, item: Item, c: Setup)
    requires Room(sh, item.key)
    ensures LoadInto(sh, item, c.at, c.wall, c.mode, c.defaultTtl) == sh <==>
              Unreadable(item) || (Left(item, c.wall).Some? && Left(item, c.wall).value <= 0.0)
  {
    if Unreadable(item) {
      UnreadableIsSkipped(sh, item, c);
    } else if Everlasting(item) {
      EverlastingStays(sh, item, c);
      AddedChanges(sh, item, None, LoadInto(sh, item, c.at, c.wall, c.mode, c.defaultTtl));
    } else if item.ttlRemaining.Some? {
      RemainingTimeCounts(sh, item, item.ttlRemaining.value.number, c);
    } else {
      WallTimeCounts(sh, item, item.expiresWall.value.number, c);
    }
  }
}
