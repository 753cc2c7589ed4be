/** The sequential and looping key patterns, and what every policy makes of them. */
module Workloads {
  import opened Prelude
  import opened Shards
  import opened Simulation

  // ---------------------------------------------------------------- key names

  function Digit(d: nat): char
    requires d < 10
  {
    "0123456789"[d]
  }

  function Decimal(n: nat): (s: string)
    ensures s != []
  {
    (if n < 10 then [] else Decimal(n / 10)) + [Digit(n % 10)]
  }

  /** `f"k{index}"`. */
  function KeyName(index: nat): string {
    "k" + Decimal(index)
  }

  /** Reading a number back from its digits. */
  function Number(s: string): nat {
    if s == [] then 0
    else 10 * Number(s[..|s| - 1]) + DigitValue(s[|s| - 1])
  }

  function DigitValue(d: char): nat {
    if '0' <= d <= '9' then d as int - '0' as int else 0
  }

  lemma DigitRead(d: nat)
    requires d < 10
    ensures '0' <= Digit(d) <= '9' && DigitValue(Digit(d)) == d
  {
    assert d == 0 || d == 1 || d == 2 || d == 3 || d == 4 || d == 5 || d == 6 || d == 7 || d == 8 || d == 9;
  }

  lemma NumberSnoc(s: string, d: char)
    ensures Number(s + [d]) == 10 * Number(s) + DigitValue(d)
  {
    assert (s + [d])[..|s|] == s;
  }

  /** Decimal notation reads back as the number it was made of. */
  lemma {:induction false} DecimalReads(n: nat)
    ensures Number(Decimal(n)) == n
  {
    var front := if n < 10 then [] else Decimal(n / 10);
    DigitRead(n % 10);
    NumberSnoc(front, Digit(n % 10));
    if n >= 10 { DecimalReads(n / 10); }
  }

  /** It has digits only, and no leading zero. */
  lemma {:induction false} DecimalDigits(n: nat)
    ensures forall d :: d in Decimal(n) ==> '0' <= d <= '9'
    ensures n > 0 ==> Decimal(n)[0] != '0'
  {
    DigitRead(n % 10);
    if n >= 10 { DecimalDigits(n / 10); }
  }

  /** Different indices have different names: the number in a name is its index. */
  lemma KeyNameInjective(a: nat, b: nat)
    ensures KeyName(a)[0] == 'k' && Number(KeyName(a)[1..]) == a
    ensures KeyName(a) == KeyName(b) ==> a == b
  {
    assert KeyName(a)[1..] == Decimal(a) && KeyName(b)[1..] == Decimal(b);
    DecimalReads(a);
    DecimalReads(b);
  }

  function Max(a: int, b: int): int {
    if a >= b then a else b
  }

  function Min(a: int, b: int): int {
    if a <= b then a else b
  }

  /** The size of the looping working set: just inside capacity. */
  function WorkingSet(capacity: nat): (w: nat)
    ensures w >= 1 && (capacity >= 1 ==> w <= capacity)
    ensures capacity >= 5 ==> 5 * (capacity - w) <= capacity < 5 * (capacity - w + 1)
    ensures 2 <= capacity <= 4 ==> w == capacity - 1
  {
    Max(1, capacity - Max(1, capacity / 5))
  }

  datatype Pattern = Sequential | Looping

  /** The index of the key that request number `i` asks for. */
  function IndexAt(pattern: Pattern, capacity: nat, i: nat): nat {
    match pattern
    case Sequential => i
    case Looping => i % WorkingSet(capacity)
  }

  /** `key_stream` for the two deterministic patterns. */
  method KeyStream(pattern: Pattern, requests: nat, capacity: nat) returns (keys: seq<string>)
    ensures |keys| == requests
    ensures forall i :: 0 <= i < requests ==> keys[i] == KeyName(IndexAt(pattern, capacity, i))
  {
    keys := [];
    var index := 0;
    while index < requests
      invariant 0 <= index <= requests && |keys| == index
      invariant forall i :: 0 <= i < index ==> keys[i] == KeyName(IndexAt(pattern, capacity, i))
    {
      match pattern {
        case Sequential => keys := keys + [KeyName(index)];
        case Looping => keys := keys + [KeyName(index % WorkingSet(capacity))];
      }
      index := index + 1;
    }
  }

  // ---------------------------------------------------------------- traces

  /** Strings are keys; `asKey` says which. */
  ghost predicate Injective(asKey: string -> Key) {
    forall a, b :: asKey(a) == asKey(b) ==> a == b
  }

  function Trace(asKey: string -> Key, pattern: Pattern, requests: nat, capacity: nat): (t: seq<Access>)
    ensures |t| == requests
    ensures forall i :: 0 <= i < requests ==> t[i] == Fetch(asKey(KeyName(IndexAt(pattern, capacity, i))))
  {
    seq(requests, i requires 0 <= i < requests => Fetch(asKey(KeyName(IndexAt(pattern, capacity, i)))))
  }

  lemma TracePrefix(asKey: string -> Key, pattern: Pattern, requests: nat, capacity: nat)
    requires requests >= 1
    ensures Trace(asKey, pattern, requests, capacity)[..requests - 1] == Trace(asKey, pattern, requests - 1, capacity)
  {
  }

  /** Every held key is one of the first `n` names. */
  ghost predicate Within(sh: Shard, asKey: string -> Key, n: nat) {
    forall k :: k in sh.entries ==> exists i :: 0 <= i < n && k == asKey(KeyName(i))
  }

  lemma NewName(sh: Shard, asKey: string -> Key, n: nat)
    requires Injective(asKey) && Within(sh, asKey, n)
    ensures asKey(KeyName(n)) !in sh.entries
  {
    if asKey(KeyName(n)) in sh.entries {
      var i :| 0 <= i < n && asKey(KeyName(n)) == asKey(KeyName(i));
      KeyNameInjective(n, i);
    }
  }

  /** What a shard of the given capacity looks like after `n` requests of a sequential scan. */
  ghost predicate Scanned(sh: Shard, asKey: string -> Key, n: nat) {
    && sh.stats.hits == 0 && sh.stats.misses == n
    && sh.stats.evictions == Max(0, n - sh.capacity)
    && |sh.order| == Min(n, sh.capacity)
    && Within(sh, asKey, n)
  }

  lemma ScanStep(sh: Shard, asKey: string -> Key, n: nat, v: Value, now: real)
    requires Eternal(sh) && Injective(asKey) && Scanned(sh, asKey, n)
    ensures Scanned(Request(sh, asKey(KeyName(n)), v, now), asKey, n + 1)
  {
    var k := asKey(KeyName(n));
    var r := Request(sh, k, v, now);
    NewName(sh, asKey, n);
    RequestMiss(sh, k, v, now);
    assert r.entries.Keys <= sh.entries.Keys + {k};
    WithinMore(sh, r, asKey, n);
  }

  lemma WithinMore(sh: Shard, sh': Shard, asKey: string -> Key, n: nat)
    requires Within(sh, asKey, n) && sh'.entries.Keys <= sh.entries.Keys + {asKey(KeyName(n))}
    ensures Within(sh', asKey, n + 1)
  {
    forall x | x in sh'.entries ensures exists i :: 0 <= i < n + 1 && x == asKey(KeyName(i)) {
      if x in sh.entries {
        var i :| 0 <= i < n && x == asKey(KeyName(i));
      } else {
        assert x == asKey(KeyName(n));
      }
    }
  }

  /** One more request of a pattern, in terms of the shard before it. */
  lemma AfterOneMore(m: Sim, asKey: string -> Key, pattern: Pattern, n: nat)
    requires m.capacity >= 1
    ensures var sh := After(m, Trace(asKey, pattern, n, m.capacity));
            var k := asKey(KeyName(IndexAt(pattern, m.capacity, n)));
            && Eternal(sh) && sh.capacity == m.capacity
            && After(m, Trace(asKey, pattern, n + 1, m.capacity)) == Request(sh, k, m.value(k), m.clock(n))
  {
    TracePrefix(asKey, pattern, n + 1, m.capacity);
    SimulationIsEternal(m, Trace(asKey, pattern, n, m.capacity));
  }

  lemma {:induction false} ScanRuns(m: Sim, asKey: string -> Key, requests: nat)
    requires m.capacity >= 1 && Injective(asKey)
    ensures Scanned(After(m, Trace(asKey, Sequential, requests, m.capacity)), asKey, requests)
    ensures After(m, Trace(asKey, Sequential, requests, m.capacity)).capacity == m.capacity
  {
    if requests > 0 {
      var n := requests - 1;
      ScanRuns(m, asKey, n);
      AfterOneMore(m, asKey, Sequential, n);
      var k := asKey(KeyName(n));
      ScanStep(After(m, Trace(asKey, Sequential, n, m.capacity)), asKey, n, m.value(k), m.clock(n));
      SimulationIsEternal(m, Trace(asKey, Sequential, requests, m.capacity));
    }
  }

  /**
    On a sequential scan no policy ever hits, and all that does not fit is evicted: the law
    holds for every policy, every capacity and every number of requests.
   */
  lemma SequentialDefeatsEveryPolicy(m: Sim, asKey: string -> Key, requests: nat)
    requires m.capacity >= 1 && Injective(asKey)
    ensures var stats := After(m, Trace(asKey, Sequential, requests, m.capacity)).stats;
            && stats.hits == 0 && stats.misses == requests
            && stats.evictions == Max(0, requests - m.capacity)
  {
    ScanRuns(m, asKey, requests);
  }

  /** All of the first `n` names are held. */
  ghost predicate HoldsAll(sh: Shard, asKey: string -> Key, n: nat) {
    forall i :: 0 <= i < n ==> asKey(KeyName(i)) in sh.entries
  }

  /** What a shard looks like after `n` requests of a loop over `w` keys. */
  ghost predicate Looped(sh: Shard, asKey: string -> Key, n: nat, w: nat) {
    && sh.stats.misses == Min(n, w) && sh.stats.hits == n - Min(n, w) && sh.stats.evictions == 0
    && |sh.order| == Min(n, w)
    && Within(sh, asKey, Min(n, w)) && HoldsAll(sh, asKey, Min(n, w))
  }

  lemma LoopGrows(sh: Shard, asKey: string -> Key, n: nat, w: nat, v: Value, now: real)
    requires Eternal(sh) && Injective(asKey) && Looped(sh, asKey, n, w) && n < w <= sh.capacity
    ensures Looped(Request(sh, asKey(KeyName(n)), v, now), asKey, n + 1, w)
  {
    var k := asKey(KeyName(n));
    NewName(sh, asKey, n);
    RequestMiss(sh, k, v, now);
    WithinMore(sh, Request(sh, k, v, now), asKey, n);
    HoldsMore(sh, Request(sh, k, v, now), asKey, n);
  }

  lemma HoldsMore(sh: Shard, sh': Shard, asKey: string -> Key, n: nat)
    requires HoldsAll(sh, asKey, n) && sh'.entries.Keys == sh.entries.Keys + {asKey(KeyName(n))}
    ensures HoldsAll(sh', asKey, n + 1)
  {
    forall i | 0 <= i < n + 1 ensures asKey(KeyName(i)) in sh'.entries {
      if i < n { assert asKey(KeyName(i)) in sh.entries.Keys; }
    }
  }

  lemma LoopHits(sh: Shard, asKey: string -> Key, n: nat, w: nat, j: nat, v: Value, now: real)
    requires Eternal(sh) && Looped(sh, asKey, n, w) && j < w <= n
    ensures Looped(Request(sh, asKey(KeyName(j)), v, now), asKey, n + 1, w)
  {
    var r := Request(sh, asKey(KeyName(j)), v, now);
    RequestHit(sh, asKey(KeyName(j)), v, now);
    assert Within(r, asKey, w) by {
      forall k | k in r.entries ensures exists i :: 0 <= i < w && k == asKey(KeyName(i)) {
        assert k in sh.entries.Keys;
      }
    }
    assert HoldsAll(r, asKey, w) by {
      forall i | 0 <= i < w ensures asKey(KeyName(i)) in r.entries {
        assert asKey(KeyName(i)) in sh.entries.Keys;
      }
    }
  }

  lemma LoopStep(sh: Shard, asKey: string -> Key, n: nat, w: nat, v: Value, now: real)
    requires Eternal(sh) && Injective(asKey) && Looped(sh, asKey, n, w) && 1 <= w <= sh.capacity
    ensures Looped(Request(sh, asKey(KeyName(n % w)), v, now), asKey, n + 1, w)
  {
    if n < w {
      assert n % w == n;
      LoopGrows(sh, asKey, n, w, v, now);
    } else {
      LoopHits(sh, asKey, n, w, n % w, v, now);
    }
  }

  lemma {:induction false} LoopRuns(m: Sim, asKey: string -> Key, requests: nat)
    requires m.capacity >= 1 && Injective(asKey)
    ensures Looped(After(m, Trace(asKey, Looping, requests, m.capacity)), asKey, requests, WorkingSet(m.capacity))
  {
    if requests > 0 {
      var n := requests - 1;
      LoopRuns(m, asKey, n);
      AfterOneMore(m, asKey, Looping, n);
      var k := asKey(KeyName(n % WorkingSet(m.capacity)));
      LoopStep(After(m, Trace(asKey, Looping, n, m.capacity)), asKey, n, WorkingSet(m.capacity), m.value(k),
               m.clock(n));
    }
  }

  /**
    On a looping working set every policy keeps the whole set: each of its keys misses once,
    everything else hits, and nothing is evicted.
   */
  lemma LoopingFitsEveryPolicy(m: Sim, asKey: string -> Key, requests: nat)
    requires m.capacity >= 1 && Injective(asKey)
    ensures var stats := After(m, Trace(asKey, Looping, requests, m.capacity)).stats;
            && stats.misses == Min(requests, WorkingSet(m.capacity))
            && stats.hits == requests - stats.misses
            && stats.evictions == 0
  {
    LoopRuns(m, asKey, requests);
  }
}
