/** What a put does to a full shard, for each policy. */
module Capacity {
  import opened Prelude
  import opened Policies
  import opened Shards

  /** The shard as the capacity check of `put` finds it. */
  function Stored(sh: Shard, k: Key, v: Value, ttl: TtlArg, now: real, mode: Mode, defaultTtl: Option<real>): (r: Shard)
    ensures Tracked(sh) ==> Tracked(r)
  {
    Store(LazyExpire(sh, k, now), k, v, ttl, now, mode, defaultTtl)
  }

  /** The key is not held and the shard has no free place for it. */
  predicate Overflows(sh: Shard, k: Key) {
    k !in sh.entries && |sh.order| == sh.capacity
  }

  lemma StoredSize(sh: Shard, k: Key, v: Value, ttl: TtlArg, now: real, mode: Mode, defaultTtl: Option<real>)
    requires ShardOk(sh)
    ensures var stored := Stored(sh, k, v, ttl, now, mode, defaultTtl);
            && (Overflows(sh, k) ==> |stored.order| == sh.capacity + 1)
            && (|stored.order| <= sh.capacity <==> !Overflows(sh, k))
  {
    WithoutNoDup(sh.order, k);
  }

  lemma EnforceOnce(stored: Shard)
    requires Tracked(stored) && |stored.order| == stored.capacity + 1
    ensures Candidate(stored.policy).Some? && Candidate(stored.policy).value in stored.entries
    ensures Enforce(stored) == Remove(stored, Candidate(stored.policy).value, Evict)
    ensures |Enforce(stored).order| == stored.capacity
  {
    HeadIsMember(stored.order);
    var victim := Candidate(stored.policy).value;
    WithoutNoDup(stored.order, victim);
  }

  /** What a put leaves is what the capacity check leaves, but for the pending count. */
  lemma PutIsEnforced(sh: Shard, k: Key, v: Value, ttl: TtlArg, now: real, mode: Mode, defaultTtl: Option<real>)
    ensures var kept := Enforce(Stored(sh, k, v, ttl, now, mode, defaultTtl));
            Put(sh, k, v, ttl, now, mode, defaultTtl) ==
              kept.(pending := Put(sh, k, v, ttl, now, mode, defaultTtl).pending)
  {
    assert StoreWithin(sh, k, v, ttl, now, mode, defaultTtl) == Enforce(Stored(sh, k, v, ttl, now, mode, defaultTtl));
  }

  lemma StoredStats(sh: Shard, k: Key, v: Value, ttl: TtlArg, now: real, mode: Mode, defaultTtl: Option<real>)
    ensures Stored(sh, k, v, ttl, now, mode, defaultTtl).stats.evictions == sh.stats.evictions
  {
  }

  /** The capacity loop runs once: a put evicts one key, the policy's candidate, or none. */
  lemma PutEvictsCandidate(sh: Shard, k: Key, v: Value, ttl: TtlArg, now: real, mode: Mode, defaultTtl: Option<real>)
    requires ShardOk(sh)
    ensures var stored := Stored(sh, k, v, ttl, now, mode, defaultTtl);
            var r := Put(sh, k, v, ttl, now, mode, defaultTtl);
            && (!Overflows(sh, k) ==>
                  r.entries == stored.entries && r.stats.evictions == sh.stats.evictions)
            && (Overflows(sh, k) ==>
                  && Candidate(stored.policy).Some?
                  && Candidate(stored.policy).value in stored.entries
                  && r.entries == stored.entries - {Candidate(stored.policy).value}
                  && r.stats.evictions == sh.stats.evictions + 1)
  {
    var stored := Stored(sh, k, v, ttl, now, mode, defaultTtl);
    StoredSize(sh, k, v, ttl, now, mode, defaultTtl);
    StoredStats(sh, k, v, ttl, now, mode, defaultTtl);
    PutIsEnforced(sh, k, v, ttl, now, mode, defaultTtl);
    var r := Put(sh, k, v, ttl, now, mode, defaultTtl);
    assert r.entries == Enforce(stored).entries && r.stats == Enforce(stored).stats;
    if Overflows(sh, k) {
      EnforceOnce(stored);
      RemovedOne(stored, Candidate(stored.policy).value);
    }
  }

  lemma RemovedOne(sh: Shard, k: Key)
    requires k in sh.entries
    ensures Remove(sh, k, Evict).entries == sh.entries - {k}
    ensures Remove(sh, k, Evict).stats.evictions == sh.stats.evictions + 1
  {
  }

  /**
    A put evicts its own key exactly under LFU, when the key is new, the shard is full and
    every other key has been touched at least twice.
   */
  lemma SelfEvictionIff(sh: Shard, k: Key, v: Value, ttl: TtlArg, now: real, mode: Mode, defaultTtl: Option<real>)
    requires ShardOk(sh)
    ensures k !in Put(sh, k, v, ttl, now, mode, defaultTtl).entries <==>
            && Overflows(sh, k)
            && sh.policy.Lfu?
            && forall j :: j in sh.policy.order ==> Freq(sh.policy.freq, j) >= 2
  {
    PutEvictsCandidate(sh, k, v, ttl, now, mode, defaultTtl);
    if Overflows(sh, k) {
      SameKeysSameLength(sh.policy.order, sh.order);
      NewKeyCandidate(sh.policy, k);
    }
  }

  /** A put of a new key into a shard with room. */
  lemma RoomyPut(sh: Shard, k: Key, v: Value, ttl: TtlArg, at: real, mode: Mode, defaultTtl: Option<real>)
    requires ShardOk(sh) && k !in sh.entries && |sh.order| < sh.capacity
    ensures var sh' := Put(sh, k, v, ttl, at, mode, defaultTtl);
            && sh'.order == sh.order + [k]
            && sh'.policy == OnPut(sh.policy, k) && sh'.policy.order == sh.policy.order + [k]
            && sh'.entries.Keys == sh.entries.Keys + {k}
            && (forall j :: j in sh.entries ==> sh'.entries[j] == sh.entries[j])
            && sh'.entries[k].value == v && sh'.entries[k].hitCount == 0
            && sh'.entries[k].expiresAt == ResolveTtl(None, ttl, at, defaultTtl).1
            && sh'.stats == sh.stats.(puts := sh.stats.puts + 1)
  {
    var stored := Store(sh, k, v, ttl, at, mode, defaultTtl);
    assert Enforce(stored) == stored;
    assert k !in sh.policy.order;
  }

  lemma SameKeysSameLength(s: seq<Key>, t: seq<Key>)
    requires NoDup(s) && NoDup(t) && forall x :: x in s <==> x in t
    ensures |s| == |t|
  {
    NoDupCardinality(s);
    NoDupCardinality(t);
    assert Elems(s) == Elems(t);
  }

  lemma NewestFirstLeast(all: seq<Key>, freq: map<Key, nat>, n: nat, i: int)
    requires |all| == n + 1 && FirstLeast(all, freq, i) && Freq(freq, all[n]) == 1
    requires forall m :: 0 <= m < n ==> Freq(freq, all[m]) >= 1
    ensures i == n <==> forall m :: 0 <= m < n ==> Freq(freq, all[m]) >= 2
  {
    if i != n { assert Freq(freq, all[n]) >= Freq(freq, all[i]); }
  }

  lemma NewestIsLeast(order: seq<Key>, freq: map<Key, nat>, k: Key)
    requires k !in order && Freq(freq, k) == 1 && forall j :: j in order ==> Freq(freq, j) >= 1
    ensures LeastUsed(order + [k], freq) == k <==> forall j :: j in order ==> Freq(freq, j) >= 2
  {
    var all := order + [k];
    var least := LeastUsed(all, freq);
    var i :| FirstLeast(all, freq, i) && all[i] == least;
    assert forall m :: 0 <= m < |order| ==> all[m] == order[m];
    NewestFirstLeast(all, freq, |order|, i);
    assert least == k <==> i == |order|;
  }

  lemma NewKeyCandidate(p: Policy, k: Key)
    requires Ok(p) && k !in p.order && p.order != []
    ensures Candidate(OnPut(p, k)) == Some(k) <==>
            p.Lfu? && forall j :: j in p.order ==> Freq(p.freq, j) >= 2
  {
    if p.Lfu? {
      NewestIsLeast(p.order, p.freq[k := 1], k);
    } else {
      assert OnPut(p, k).order == p.order + [k];
      HeadIsMember(p.order);
    }
  }

  /** Under LRU and FIFO a put never evicts its own key. */
  lemma OrderedPoliciesKeepTheKey(sh: Shard, k: Key, v: Value, ttl: TtlArg, now: real, mode: Mode,
                                  defaultTtl: Option<real>)
    requires ShardOk(sh) && !sh.policy.Lfu?
    ensures k in Put(sh, k, v, ttl, now, mode, defaultTtl).entries
  {
    SelfEvictionIff(sh, k, v, ttl, now, mode, defaultTtl);
  }

  // ---------------------------------------------------------------- sharding

  function Sum(s: seq<nat>): nat {
    if s == [] then 0 else Sum(s[..|s| - 1]) + s[|s| - 1]
  }

  lemma {:induction false} SumPrefix(s: seq<nat>, base: nat, extra: nat, n: nat)
    requires n <= |s| && forall i :: 0 <= i < |s| ==> s[i] == base + (if i < extra then 1 else 0)
    ensures Sum(s[..n]) == n * base + (if n < extra then n else extra)
  {
    if n > 0 {
      SumPrefix(s, base, extra, n - 1);
      assert s[..n][..n - 1] == s[..n - 1];
    }
  }

  /** The shard capacities add up to the total and differ by at most one. */
  lemma CapacitiesSplitTotal(total: nat, count: nat)
    requires count >= 1
    ensures Sum(ShardCapacities(total, count)) == total
    ensures forall i, j :: 0 <= i < j < count ==>
              0 <= ShardCapacities(total, count)[i] - ShardCapacities(total, count)[j] <= 1
  {
    var s := ShardCapacities(total, count);
    SumPrefix(s, total / count, total % count, count);
    assert s[..count] == s;
  }
}
