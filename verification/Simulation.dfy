/** The workload simulator on one shard: request loop, LRU stack property and workload laws. */
module Simulation {
  import opened Prelude
  import opened Policies
  import opened Shards
  import opened Capacity
  import opened CacheShards

  /** One simulated request: read the key, and on a miss put it. */
  function Request(sh: Shard, k: Key, v: Value, now: real): (r: Shard)
  {
    var (found, sh') := Read(sh, k, true, now);
    if found.None? then Put(sh', k, v, Unset, now, CacheOnly, None) else sh'
  }

  /** What the workload asks for: a plain key, or a key marked as a write. */
  datatype Access = Fetch(key: Key) | Store(key: Key)

  /**
    A simulation: the value put for a missed key, the value written by each write request, and
    the clock reading of each request.
   */
  datatype Sim = Sim(capacity: nat, kind: Kind, value: Key -> Value, written: nat -> Value, clock: nat -> real)

  /** The shard after request number `n`. */
  function Perform(m: Sim, sh: Shard, a: Access, n: nat): Shard {
    match a
    case Fetch(k) => Request(sh, k, m.value(k), m.clock(n))
    case Store(k) => Put(sh, k, m.written(n), Unset, m.clock(n), CacheOnly, None)
  }

  /** The shard after the requests of `trace`. */
  function After(m: Sim, trace: seq<Access>): (sh: Shard)
  {
    if trace == [] then NewShard(m.capacity, m.kind)
    else
      var n := |trace| - 1;
      Perform(m, After(m, trace[..n]), trace[n], n)
  }

  function Stores(trace: seq<Access>): nat {
    if trace == [] then 0 else Stores(trace[..|trace| - 1]) + if trace[|trace| - 1].Store? then 1 else 0
  }

  /** The request loop of `run_simulation`, on a shard object. */
  method RunSimulation(m: Sim, trace: seq<Access>) returns (shard: CacheShard, writes: nat)
    ensures shard.View() == After(m, trace) && writes == Stores(trace)
  {
    shard := new CacheShard(m.capacity, m.kind);
    writes := 0;
    var i := 0;
    assert trace[..0] == [];
    while i < |trace|
      invariant 0 <= i <= |trace| && fresh(shard)
      invariant shard.View() == After(m, trace[..i]) && writes == Stores(trace[..i])
    {
      assert trace[..i + 1][..i] == trace[..i];
      match trace[i] {
        case Store(k) =>
          var _ := shard.Put(k, m.written(i), Unset, m.clock(i), CacheOnly, None);
          writes := writes + 1;
        case Fetch(k) =>
          var found := shard.ReadValue(k, true, m.clock(i));
          if found.None? {
            var _ := shard.Put(k, m.value(k), Unset, m.clock(i), CacheOnly, None);
          }
      }
      i := i + 1;
    }
    assert trace[..|trace|] == trace;
  }

  // ---------------------------------------------------------------- one request

  /** A simulated shard never holds anything that could expire. */
  ghost predicate Eternal(sh: Shard) {
    ShardOk(sh) && forall k :: k in sh.entries ==> sh.entries[k].expiresAt.None?
  }

  /** A hit counts and touches; it changes no key. */
  lemma RequestHit(sh: Shard, k: Key, v: Value, now: real)
    requires Eternal(sh) && k in sh.entries
    ensures var r := Request(sh, k, v, now);
            && Eternal(r) && r.entries.Keys == sh.entries.Keys
            && r.policy == OnGet(sh.policy, k)
            && r.order == sh.order && r.capacity == sh.capacity
            && r.stats == sh.stats.(hits := sh.stats.hits + 1)
  {
    ReadOk(sh, k, true, now);
  }

  /** A miss inserts the key and, on a full shard, evicts the policy's candidate. */
  lemma RequestMiss(sh: Shard, k: Key, v: Value, now: real)
    requires Eternal(sh) && k !in sh.entries
    ensures var r := Request(sh, k, v, now);
            var p := OnPut(sh.policy, k);
            && Eternal(r) && r.capacity == sh.capacity
            && r.stats.hits == sh.stats.hits && r.stats.misses == sh.stats.misses + 1
            && if |sh.order| < sh.capacity
               then && r.entries.Keys == sh.entries.Keys + {k} && r.policy == p
                    && |r.order| == |sh.order| + 1
                    && r.stats.evictions == sh.stats.evictions
               else && Candidate(p).Some? && r.entries.Keys == sh.entries.Keys + {k} - {Candidate(p).value}
                    && r.policy == OnDelete(p, Candidate(p).value)
                    && |r.order| == |sh.order|
                    && r.stats.evictions == sh.stats.evictions + 1
  {
    var missed := sh.(stats := sh.stats.(misses := sh.stats.misses + 1));
    assert Read(sh, k, true, now).1 == missed;
    MissedPut(missed, k, v, now);
  }

  lemma MissedPut(sh: Shard, k: Key, v: Value, now: real)
    requires Eternal(sh) && k !in sh.entries
    ensures var r := Put(sh, k, v, Unset, now, CacheOnly, None);
            var p := OnPut(sh.policy, k);
            && Eternal(r) && r.capacity == sh.capacity
            && r.stats.hits == sh.stats.hits && r.stats.misses == sh.stats.misses
            && if |sh.order| < sh.capacity
               then && r.entries.Keys == sh.entries.Keys + {k} && r.policy == p
                    && |r.order| == |sh.order| + 1
                    && r.stats.evictions == sh.stats.evictions
               else && Candidate(p).Some? && r.entries.Keys == sh.entries.Keys + {k} - {Candidate(p).value}
                    && r.policy == OnDelete(p, Candidate(p).value)
                    && |r.order| == |sh.order|
                    && r.stats.evictions == sh.stats.evictions + 1
  {
    var stored := Shards.Store(sh, k, v, Unset, now, CacheOnly, None);
    if |sh.order| == sh.capacity {
      EnforceOnce(stored);
      assert Enforce(stored).policy == OnDelete(stored.policy, Candidate(stored.policy).value);
    }
  }

  /** A write to a held key changes no key and counts as neither hit nor miss. */
  lemma HeldPut(sh: Shard, k: Key, v: Value, now: real)
    requires Eternal(sh) && k in sh.entries
    ensures var r := Put(sh, k, v, Unset, now, CacheOnly, None);
            && Eternal(r) && r.entries.Keys == sh.entries.Keys && r.policy == OnPut(sh.policy, k)
            && r.order == sh.order && r.capacity == sh.capacity
            && r.stats == sh.stats.(puts := sh.stats.puts + 1)
  {
    var stored := Shards.Store(sh, k, v, Unset, now, CacheOnly, None);
    assert Put(sh, k, v, Unset, now, CacheOnly, None) == stored by {
      assert LazyExpire(sh, k, now) == sh && Enforce(stored) == stored;
    }
    HeldStore(sh, k, v, now);
  }

  lemma HeldStore(sh: Shard, k: Key, v: Value, now: real)
    requires Eternal(sh) && k in sh.entries
    ensures var r := Shards.Store(sh, k, v, Unset, now, CacheOnly, None);
            && Eternal(r) && r.entries.Keys == sh.entries.Keys
            && r.order == sh.order && r.stats == sh.stats.(puts := sh.stats.puts + 1)
  {
  }

  lemma PerformEternal(m: Sim, sh: Shard, a: Access, n: nat)
    requires Eternal(sh)
    ensures Eternal(Perform(m, sh, a, n)) && Perform(m, sh, a, n).capacity == sh.capacity
    ensures KindOf(Perform(m, sh, a, n).policy) == KindOf(sh.policy)
  {
    var k := a.key;
    match a
    case Fetch(_) =>
      if k in sh.entries {
        RequestHit(sh, k, m.value(k), m.clock(n));
      } else {
        RequestMiss(sh, k, m.value(k), m.clock(n));
      }
    case Store(_) =>
      if k in sh.entries {
        HeldPut(sh, k, m.written(n), m.clock(n));
      } else {
        MissedPut(sh, k, m.written(n), m.clock(n));
      }
  }

  lemma {:induction false} SimulationIsEternal(m: Sim, trace: seq<Access>)
    requires m.capacity >= 1
    ensures Eternal(After(m, trace))
    ensures After(m, trace).capacity == m.capacity
    ensures KindOf(After(m, trace).policy) == m.kind
  {
    if trace != [] {
      var n := |trace| - 1;
      SimulationIsEternal(m, trace[..n]);
      PerformEternal(m, After(m, trace[..n]), trace[n], n);
    }
  }

  // ---------------------------------------------------------------- the LRU stack

  /** The distinct requested keys by last request, oldest first. */
  function Recency(trace: seq<Access>): (r: seq<Key>)
    ensures NoDup(r)
  {
    if trace == [] then [] else MoveToEnd(Recency(trace[..|trace| - 1]), trace[|trace| - 1].key)
  }

  /** The newest `n` of them. */
  function Newest(s: seq<Key>, n: nat): seq<Key> {
    if |s| <= n then s else s[|s| - n..]
  }

  lemma NoDupSplit(p: seq<Key>, q: seq<Key>, k: Key)
    requires NoDup(p + q) && k in q
    ensures k !in p
  {
    if p != [] {
      assert (p + q)[1..] == p[1..] + q;
      NoDupSplit(p[1..], q, k);
    }
  }

  /** Requesting one of the newest `n` keys reorders just these. */
  lemma NewestHit(s: seq<Key>, n: nat, k: Key)
    requires NoDup(s) && k in Newest(s, n)
    ensures Newest(MoveToEnd(s, k), n) == MoveToEnd(Newest(s, n), k)
  {
    NewestSplits(s, n);
    var q := Newest(s, n);
    var p := s[..|s| - |q|];
    NoDupSplit(p, q, k);
    NoDupSuffix(p, q);
    MoveAcross(p, q, k);
    NewestSuffix(p, MoveToEnd(q, k), n);
  }

  lemma MoveAcross(p: seq<Key>, q: seq<Key>, k: Key)
    requires k !in p
    ensures MoveToEnd(p + q, k) == p + MoveToEnd(q, k)
  {
    WithoutAppend(p, q, k);
    assert p + (Without(q, k) + [k]) == (p + Without(q, k)) + [k];
  }

  lemma NewestSuffix(p: seq<Key>, q: seq<Key>, n: nat)
    requires |q| == n || (|q| < n && p == [])
    ensures Newest(p + q, n) == q
  {
  }

  lemma NewestSplits(s: seq<Key>, n: nat)
    ensures var q := Newest(s, n);
            |q| <= |s| && s == s[..|s| - |q|] + q && (|q| == n || (|q| < n && s[..|s| - |q|] == []))
  {
  }

  lemma NoDupSuffix(p: seq<Key>, q: seq<Key>)
    requires NoDup(p + q)
    ensures NoDup(q)
  {
    if p != [] {
      assert (p + q)[1..] == p[1..] + q;
      NoDupSuffix(p[1..], q);
    } else {
      assert p + q == q;
    }
  }

  /** Requesting another key appends it and drops the oldest of `n`. */
  lemma NewestMiss(s: seq<Key>, n: nat, k: Key)
    requires k !in Newest(s, n) && n >= 1
    ensures var q := Newest(s, n);
            Newest(MoveToEnd(s, k), n) == if |q| < n then q + [k] else (q + [k])[1..]
  {
    NewestSplits(s, n);
    var q := Newest(s, n);
    var p := s[..|s| - |q|];
    WithoutAppend(p, q, k);
    assert Without(p, k) + q + [k] == Without(p, k) + (q + [k]);
    NewestOfLonger(Without(p, k), q, k, n);
  }

  lemma NewestOfLonger(p: seq<Key>, q: seq<Key>, k: Key, n: nat)
    requires n >= 1 && (|q| == n || (|q| < n && p == []))
    ensures Newest(p + (q + [k]), n) == if |q| < n then q + [k] else (q + [k])[1..]
  {
    if |q| < n {
      NewestSuffix(p, q + [k], n);
    } else {
      var tail := (q + [k])[1..];
      assert p + (q + [k]) == (p + [q[0]]) + tail;
      NewestSuffix(p + [q[0]], tail, n);
    }
  }

  /** The LRU shard holds exactly `q`, oldest first. */
  ghost predicate Holds(sh: Shard, q: seq<Key>) {
    sh.policy == Lru(q) && forall k :: k in sh.entries <==> k in q
  }

  /** A request for a held key moves it to the end, whether it reads or writes. */
  lemma LruHit(m: Sim, sh: Shard, a: Access, n: nat, q: seq<Key>)
    requires Eternal(sh) && Holds(sh, q) && a.key in q
    ensures Holds(Perform(m, sh, a, n), MoveToEnd(q, a.key))
  {
    match a
    case Fetch(k) => RequestHit(sh, k, m.value(k), m.clock(n));
    case Store(k) => HeldPut(sh, k, m.written(n), m.clock(n));
  }

  /** A request for another key appends it and, on a full shard, drops the oldest. */
  lemma LruMiss(m: Sim, sh: Shard, a: Access, n: nat, q: seq<Key>)
    requires Eternal(sh) && Holds(sh, q) && a.key !in q
    ensures Holds(Perform(m, sh, a, n), if |q| < sh.capacity then q + [a.key] else (q + [a.key])[1..])
  {
    SameKeysSameLength(q, sh.order);
    var r := Perform(m, sh, a, n);
    match a {
      case Fetch(k) =>
        assert r == Request(sh, k, m.value(k), m.clock(n));
        RequestMiss(sh, k, m.value(k), m.clock(n));
        LruInserts(sh, q, k, r);
      case Store(k) =>
        assert r == Put(sh, k, m.written(n), Unset, m.clock(n), CacheOnly, None);
        MissedPut(sh, k, m.written(n), m.clock(n));
        LruInserts(sh, q, k, r);
    }
  }

  lemma LruInserts(sh: Shard, q: seq<Key>, k: Key, r: Shard)
    requires Holds(sh, q) && NoDup(q) && k !in q
    requires var p := OnPut(sh.policy, k);
             if |q| < sh.capacity then r.entries.Keys == sh.entries.Keys + {k} && r.policy == p
             else && Candidate(p).Some? && r.entries.Keys == sh.entries.Keys + {k} - {Candidate(p).value}
                  && r.policy == OnDelete(p, Candidate(p).value) && q != []
    ensures Holds(r, if |q| < sh.capacity then q + [k] else (q + [k])[1..])
  {
    LruMissOrder(q, k);
    NoDupSnoc(q, k);
    assert q != [] ==> q + [k] == [q[0]] + (q + [k])[1..];
  }

  /** An LRU cache of capacity `c` holds exactly the `c` most recently requested distinct keys, in order. */
  lemma {:induction false} LruHoldsTheNewest(m: Sim, trace: seq<Access>)
    requires m.capacity >= 1 && m.kind == LRU
    ensures After(m, trace).policy == Lru(Newest(Recency(trace), m.capacity))
    ensures forall k :: k in After(m, trace).entries <==> k in Newest(Recency(trace), m.capacity)
  {
    if trace != [] {
      var n := |trace| - 1;
      var sh, r := After(m, trace[..n]), Recency(trace[..n]);
      var q := Newest(r, m.capacity);
      LruHoldsTheNewest(m, trace[..n]);
      SimulationIsEternal(m, trace[..n]);
      if trace[n].key in q {
        LruHit(m, sh, trace[n], n, q);
        NewestHit(r, m.capacity, trace[n].key);
      } else {
        LruMiss(m, sh, trace[n], n, q);
        NewestMiss(r, m.capacity, trace[n].key);
      }
    }
  }

  lemma LruMissOrder(q: seq<Key>, k: Key)
    requires k !in q && NoDup(q)
    ensures OnPut(Lru(q), k) == Lru(q + [k])
    ensures q != [] ==> OnDelete(Lru(q + [k]), q[0]) == Lru((q + [k])[1..])
  {
    if q != [] {
      NoDupSnoc(q, k);
      assert (q + [k])[0] == q[0];
      assert q[0] !in (q + [k])[1..];
    }
  }

  /** The stack property: what a smaller LRU cache holds a larger one holds too. */
  lemma SmallerIsSubset(m: Sim, m': Sim, trace: seq<Access>)
    requires 1 <= m.capacity <= m'.capacity && m.kind == LRU && m'.kind == LRU
    ensures After(m, trace).entries.Keys <= After(m', trace).entries.Keys
  {
    LruHoldsTheNewest(m, trace);
    LruHoldsTheNewest(m', trace);
    NewestGrows(Recency(trace), m.capacity, m'.capacity);
  }

  lemma NewestGrows(s: seq<Key>, n: nat, n': nat)
    requires n <= n'
    ensures forall k :: k in Newest(s, n) ==> k in Newest(s, n')
  {
    var q, q' := Newest(s, n), Newest(s, n');
    assert forall i :: 0 <= i < |q| ==> q[i] == q'[i + |q'| - |q|];
  }

  /** On the same trace LRU hits never fall as capacity grows; every read hits or misses. */
  lemma {:induction false} HitsGrowWithCapacity(m: Sim, m': Sim, trace: seq<Access>)
    requires 1 <= m.capacity <= m'.capacity && m.kind == LRU && m'.kind == LRU
    ensures After(m, trace).stats.hits <= After(m', trace).stats.hits
    ensures After(m, trace).stats.hits + After(m, trace).stats.misses == |trace| - Stores(trace)
  {
    if trace != [] {
      var n := |trace| - 1;
      HitsGrowWithCapacity(m, m', trace[..n]);
      SmallerIsSubset(m, m', trace[..n]);
      CountRequest(m, trace);
      CountRequest(m', trace);
    }
  }

  /** A read is a hit exactly when the key is held, and a write is neither hit nor miss. */
  lemma CountRequest(m: Sim, trace: seq<Access>)
    requires m.capacity >= 1 && trace != []
    ensures var before := After(m, trace[..|trace| - 1]);
            var stats := After(m, trace).stats;
            var a := trace[|trace| - 1];
            && stats.hits == before.stats.hits + (if a.Fetch? && a.key in before.entries then 1 else 0)
            && stats.misses == before.stats.misses + (if a.Fetch? && a.key !in before.entries then 1 else 0)
  {
    var n := |trace| - 1;
    SimulationIsEternal(m, trace[..n]);
    CountOne(m, After(m, trace[..n]), trace[n], n);
  }

  lemma CountOne(m: Sim, sh: Shard, a: Access, n: nat)
    requires Eternal(sh)
    ensures var stats := Perform(m, sh, a, n).stats;
            && stats.hits == sh.stats.hits + (if a.Fetch? && a.key in sh.entries then 1 else 0)
            && stats.misses == sh.stats.misses + (if a.Fetch? && a.key !in sh.entries then 1 else 0)
  {
    var k := a.key;
    match a
    case Fetch(_) =>
      if k in sh.entries {
        RequestHit(sh, k, m.value(k), m.clock(n));
      } else {
        RequestMiss(sh, k, m.value(k), m.clock(n));
      }
    case Store(_) =>
      if k in sh.entries {
        HeldPut(sh, k, m.written(n), m.clock(n));
      } else {
        MissedPut(sh, k, m.written(n), m.clock(n));
      }
  }
}
