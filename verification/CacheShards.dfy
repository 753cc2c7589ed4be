/**
  The shard object: the fields that `Cache` updates in place under the shard lock, and the
  locked regions as methods.  `View` is the shard value, and every method is proved against
  the function of `Shards` for its region.
 */
module CacheShards {
  import opened Prelude
  import P = Policies
  import S = Shards

  class CacheShard {
    const capacity: nat
    var order: seq<Key>
    var entries: map<Key, S.Entry>
    var policy: P.Policy
    var marks: map<Key, nat>
    var tombs: map<Key, nat>
    var pending: map<Key, nat>
    var stats: S.Stats

    function View(): S.Shard
      reads this
    {
      S.Shard(capacity, order, entries, policy, marks, tombs, pending, stats)
    }

    constructor (capacity: nat, kind: P.Kind)
      ensures View() == S.NewShard(capacity, kind)
    {
      this.capacity := capacity;
      order, entries, policy := [], map[], P.Fresh(kind);
      marks, tombs, pending, stats := map[], map[], map[], S.ZERO_STATS;
    }

    // -------------------------------------------------------------- metadata

    method NextVersion(k: Key) returns (version: nat)
      modifies this`marks
      ensures version == S.Get(old(marks), k) + 1 && marks == old(marks)[k := version]
    {
      version := S.Get(marks, k) + 1;
      marks := marks[k := version];
    }

    method MaybePruneMarks(k: Key)
      modifies this
      ensures View() == S.Prune(old(View()), k)
    {
      if S.Get(pending, k) > 0 { return; }
      if k in entries { return; }
      marks := marks - {k};
      tombs := tombs - {k};
    }

    method RegisterPending(k: Key)
      modifies this
      ensures View() == S.Register(old(View()), k)
    {
      pending := pending[k := S.Get(pending, k) + 1];
    }

    method ResolvePending(k: Key)
      modifies this
      ensures View() == S.Resolve(old(View()), k)
    {
      var remaining := S.Get(pending, k) - 1;
      if remaining > 0 {
        pending := pending[k := remaining];
      } else {
        pending := pending - {k};
      }
      MaybePruneMarks(k);
    }

    method ClearPendingFlushes(k: Key)
      modifies this
      ensures View() == S.ClearPending(old(View()), k)
    {
      pending := pending - {k};
      MaybePruneMarks(k);
    }

    // -------------------------------------------------------------- removal

    method RemoveEntry(k: Key, reason: S.Reason) returns (removed: bool)
      modifies this
      ensures View() == S.Remove(old(View()), k, reason)
      ensures removed <==> k in old(entries)
    {
      removed := k in entries;
      order := Without(order, k);
      entries := entries - {k};
      policy := P.OnDelete(policy, k);
      if removed && reason == S.Evict {
        stats := stats.(evictions := stats.evictions + 1);
      } else if removed && reason == S.Expire {
        stats := stats.(expirations := stats.expirations + 1);
      }
      MaybePruneMarks(k);
    }

    method EnforceCapacity()
      modifies this
      ensures View() == S.Enforce(old(View()))
    {
      while |order| > capacity
        invariant S.Enforce(View()) == S.Enforce(old(View()))
        decreases |policy.order|
      {
        var candidate := P.Candidate(policy);
        if candidate.None? { return; }
        var _ := RemoveEntry(candidate.value, S.Evict);
      }
    }

    method ExpireShard(now: real) returns (expired: nat)
      requires NoDup(order)
      modifies this
      ensures View() == S.ExpireAll(old(View()), now)
      ensures expired == |S.ExpiredKeys(old(View()), now)|
    {
      var keys := S.ExpiredKeys(View(), now);
      KeepNoDup(order, set k | k in entries && S.Expired(entries[k], now));
      expired := 0;
      var i := 0;
      while i < |keys|
        invariant 0 <= i <= |keys| && expired == i
        invariant NoDup(keys[i..]) && forall k :: k in keys[i..] ==> k in entries
        invariant S.RemoveAll(View(), keys[i..], S.Expire) == S.ExpireAll(old(View()), now)
      {
        assert keys[i..][0] == keys[i] && keys[i..][1..] == keys[i + 1..];
        var removed := RemoveEntry(keys[i], S.Expire);
        if removed { expired := expired + 1; }
        i := i + 1;
      }
    }

    // -------------------------------------------------------------- client calls

    method ReadValue(k: Key, touch: bool, now: real) returns (found: Option<Value>)
      modifies this
      ensures (found, View()) == S.Read(old(View()), k, touch, now)
    {
      if k !in entries {
        stats := stats.(misses := stats.misses + 1);
        return None;
      }
      if S.Expired(entries[k], now) {
        var _ := RemoveEntry(k, S.Expire);
        stats := stats.(misses := stats.misses + 1);
        return None;
      }
      found := Some(entries[k].value);
      if touch {
        entries := entries[k := entries[k].(lastAccessedAt := now, hitCount := entries[k].hitCount + 1)];
        policy := P.OnGet(policy, k);
      }
      stats := stats.(hits := stats.hits + 1);
    }

    method StoreEntry(k: Key, v: Value, ttl: S.TtlArg, now: real, mode: S.Mode, defaultTtl: Option<real>)
      returns (version: nat)
      modifies this
      ensures View() == S.Store(old(View()), k, v, ttl, now, mode, defaultTtl)
      ensures version == S.Get(old(marks), k) + 1
    {
      var existing := if k in entries then Some(entries[k]) else None;
      version := NextVersion(k);
      tombs := tombs - {k};
      var (life, deadline) := S.ResolveTtl(existing, ttl, now, defaultTtl);
      var entry := S.Entry(
        v,
        if existing.None? then now else existing.value.createdAt,
        now,
        if existing.None? then 0 else existing.value.hitCount,
        deadline, life, version, mode.WriteBack?);
      if existing.None? {
        order := order + [k];
      }
      entries := entries[k := entry];
      policy := P.OnPut(policy, k);
      stats := stats.(puts := stats.puts + 1);
    }

    /** The locked region of `put`; the version is the one the flush job carries. */
    method Put(k: Key, v: Value, ttl: S.TtlArg, now: real, mode: S.Mode, defaultTtl: Option<real>)
      returns (version: nat)
      modifies this
      ensures View() == S.Put(old(View()), k, v, ttl, now, mode, defaultTtl)
      ensures version == S.PutVersion(old(View()), k, now)
    {
      if k in entries && S.Expired(entries[k], now) {
        var _ := RemoveEntry(k, S.Expire);
      }
      assert View() == S.LazyExpire(old(View()), k, now);
      version := StoreEntry(k, v, ttl, now, mode, defaultTtl);
      EnforceCapacity();
      assert View() == S.StoreWithin(old(View()), k, v, ttl, now, mode, defaultTtl);
      if mode.WriteBack? {
        RegisterPending(k);
      }
    }

    /** The tombstone of a write-back delete, its version and its pending flush. */
    method NoteDelete(k: Key) returns (version: nat)
      modifies this
      ensures View() == S.Note(old(View()), k)
      ensures version == S.Get(old(marks), k) + 1
    {
      version := NextVersion(k);
      tombs := tombs[k := version];
      RegisterPending(k);
    }

    method Delete(k: Key, mode: S.Mode) returns (existed: bool)
      modifies this
      ensures View() == S.Delete(old(View()), k, mode)
      ensures existed <==> k in old(entries)
    {
      if mode.WriteBack? {
        var _ := NoteDelete(k);
      }
      existed := RemoveEntry(k, S.Drop);
      if existed {
        stats := stats.(deletes := stats.deletes + 1);
      }
    }

    method DeleteKeys(keys: seq<Key>, mode: S.Mode)
      modifies this
      ensures View() == S.DeleteAll(old(View()), keys, mode)
    {
      var i := 0;
      while i < |keys|
        invariant 0 <= i <= |keys|
        invariant S.DeleteAll(View(), keys[i..], mode) == S.DeleteAll(old(View()), keys, mode)
      {
        assert keys[i..][0] == keys[i] && keys[i..][1..] == keys[i + 1..];
        var _ := Delete(keys[i], mode);
        i := i + 1;
      }
    }

    /** The locked region of `clear` for this shard. */
    method Clear(mode: S.Mode)
      modifies this
      ensures View() == S.Clear(old(View()), mode)
    {
      DeleteKeys(order, mode);
      policy := P.Fresh(P.KindOf(policy));
    }

    method MarkClean(k: Key, version: nat)
      modifies this`entries
      ensures View() == S.MarkClean(old(View()), k, version)
    {
      if k in entries && entries[k].version == version {
        entries := entries[k := entries[k].(dirty := false)];
      }
    }

    /** `restore_entry_metadata`. */
    method RestoreHits(k: Key, hits: nat)
      modifies this`entries
      ensures View() == S.RestoreHits(old(View()), k, hits)
    {
      if k in entries {
        entries := entries[k := entries[k].(hitCount := hits)];
      }
    }
  }

  predicate Separate(shards: seq<CacheShard>) {
    forall i, j :: 0 <= i < j < |shards| ==> shards[i] != shards[j]
  }

  /** The values of all shards of a cache. */
  ghost function Views(shards: seq<CacheShard>): (r: seq<S.Shard>)
    reads shards
    ensures |r| == |shards| && forall i :: 0 <= i < |r| ==> r[i] == shards[i].View()
  {
    seq(|shards|, i requires 0 <= i < |shards| reads shards => shards[i].View())
  }
}
