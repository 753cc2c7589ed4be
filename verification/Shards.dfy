/**
  One cache shard as a value, and each region that `Cache` runs under the shard lock as a
  function from the shard before to the shard after.
 */
module Shards {
  import opened Prelude
  import opened Policies

  datatype Entry = Entry(
    value: Value,
    createdAt: real,
    lastAccessedAt: real,
    hitCount: nat,
    expiresAt: Option<real>,
    ttl: Option<real>,
    version: nat,
    dirty: bool)

  datatype Stats = Stats(hits: nat, misses: nat, puts: nat, deletes: nat, evictions: nat, expirations: nat)

  /** `order` is the insertion order of the backend dictionary, `entries` its contents. */
  datatype Shard = Shard(
    capacity: nat,
    order: seq<Key>,
    entries: map<Key, Entry>,
    policy: Policy,
    marks: map<Key, nat>,
    tombs: map<Key, nat>,
    pending: map<Key, nat>,
    stats: Stats)

  datatype Mode = CacheOnly | WriteThrough | WriteBack

  /** The `ttl` argument of `put`: omitted, an explicit `None`, or a number. */
  datatype TtlArg = Unset | NoExpiry | Seconds(seconds: real)

  datatype Reason = Evict | Expire | Drop

  const ZERO_STATS := Stats(0, 0, 0, 0, 0, 0)

  function NewShard(capacity: nat, kind: Kind): (sh: Shard)
    ensures capacity >= 1 ==> ShardOk(sh)
  {
    Shard(capacity, [], map[], Fresh(kind), map[], map[], map[], ZERO_STATS)
  }

  /** How the total capacity is split: `shard_capacities`. */
  function ShardCapacities(total: nat, count: nat): (r: seq<nat>)
    requires count >= 1
    ensures |r| == count
    ensures total >= count ==> forall i :: 0 <= i < count ==> r[i] >= 1
  {
    seq(count, i requires 0 <= i < count => total / count + (if i < total % count then 1 else 0))
  }

  /** Backend and policy track the same keys, and the shard is within its capacity. */
  ghost predicate ShardOk(sh: Shard) {
    && Tracked(sh)
    && |sh.order| <= sh.capacity
  }

  ghost predicate Tracked(sh: Shard) {
    && sh.capacity >= 1
    && NoDup(sh.order)
    && (forall k :: k in sh.entries <==> k in sh.order)
    && Ok(sh.policy)
    && (forall k :: k in sh.policy.order <==> k in sh.order)
    && (sh.policy.Fifo? ==> sh.policy.order == sh.order)
  }

  function Get(m: map<Key, nat>, k: Key): nat {
    if k in m then m[k] else 0
  }

  predicate Expired(e: Entry, now: real) {
    e.expiresAt.Some? && now >= e.expiresAt.value
  }

  function Lookup(sh: Shard, k: Key): Option<Entry> {
    if k in sh.entries then Some(sh.entries[k]) else None
  }

  /** The entry a reader at `now` may see. */
  function Visible(sh: Shard, k: Key, now: real): Option<Entry> {
    if k in sh.entries && !Expired(sh.entries[k], now) then Some(sh.entries[k]) else None
  }

  // ---------------------------------------------------------------- metadata

  function Prune(sh: Shard, k: Key): (r: Shard)
    ensures r == sh.(marks := r.marks, tombs := r.tombs)
  {
    if Get(sh.pending, k) > 0 || k in sh.entries then sh
    else sh.(marks := sh.marks - {k}, tombs := sh.tombs - {k})
  }

  function Register(sh: Shard, k: Key): (r: Shard)
    ensures ShardOk(sh) ==> ShardOk(r)
    ensures r == sh.(pending := r.pending)
  {
    sh.(pending := sh.pending[k := Get(sh.pending, k) + 1])
  }

  function Resolve(sh: Shard, k: Key): (r: Shard)
    ensures r == sh.(marks := r.marks, tombs := r.tombs, pending := r.pending)
  {
    var remaining := Get(sh.pending, k) - 1;
    Prune(if remaining > 0 then sh.(pending := sh.pending[k := remaining])
          else sh.(pending := sh.pending - {k}), k)
  }

  function ClearPending(sh: Shard, k: Key): (r: Shard)
    ensures r == sh.(marks := r.marks, tombs := r.tombs, pending := r.pending)
  {
    Prune(sh.(pending := sh.pending - {k}), k)
  }

  // ------------------------------------------------------- removal and eviction

  function Detach(sh: Shard, k: Key): (r: Shard)
    ensures Tracked(sh) ==> Tracked(r)
    ensures forall x :: x in r.entries <==> x in sh.entries && x != k
    ensures forall x :: x in r.entries ==> r.entries[x] == sh.entries[x]
  {
    WithoutNoDup(sh.order, k);
    sh.(order := Without(sh.order, k), entries := sh.entries - {k}, policy := OnDelete(sh.policy, k))
  }

  function Counted(stats: Stats, removed: bool, reason: Reason): Stats {
    if !removed then stats
    else
      match reason
      case Evict => stats.(evictions := stats.evictions + 1)
      case Expire => stats.(expirations := stats.expirations + 1)
      case Drop => stats
  }

  function Remove(sh: Shard, k: Key, reason: Reason): (r: Shard)
    ensures Tracked(sh) ==> Tracked(r)
    ensures forall x :: x in r.entries <==> x in sh.entries && x != k
    ensures forall x :: x in r.entries ==> r.entries[x] == sh.entries[x]
    ensures r.order == Without(sh.order, k) && r.policy == OnDelete(sh.policy, k)
    ensures r.capacity == sh.capacity && r.pending == sh.pending
  {
    var detached := Detach(sh, k);
    var r := Prune(detached.(stats := Counted(sh.stats, k in sh.entries, reason)), k);
    assert r == detached.(marks := r.marks, tombs := r.tombs, stats := r.stats);
    r
  }

  function RemoveAll(sh: Shard, ks: seq<Key>, reason: Reason): (r: Shard)
    ensures Tracked(sh) ==> Tracked(r)
    ensures forall x :: x in r.entries <==> x in sh.entries && x !in ks
    ensures forall x :: x in r.entries ==> r.entries[x] == sh.entries[x]
    ensures r.capacity == sh.capacity && |r.order| <= |sh.order| && r.pending == sh.pending
    ensures KindOf(r.policy) == KindOf(sh.policy)
    decreases |ks|
  {
    if ks == [] then sh
    else
      assert forall x :: x in ks <==> x == ks[0] || x in ks[1..];
      RemoveAll(Remove(sh, ks[0], reason), ks[1..], reason)
  }

  function Enforce(sh: Shard): (r: Shard)
    ensures Tracked(sh) ==> ShardOk(r)
    ensures |sh.order| <= sh.capacity ==> r == sh
    ensures forall x :: x in r.entries ==> x in sh.entries && r.entries[x] == sh.entries[x]
    ensures r.capacity == sh.capacity && r.pending == sh.pending
    ensures KindOf(r.policy) == KindOf(sh.policy)
    decreases |sh.policy.order|
  {
    if |sh.order| <= sh.capacity then sh
    else
      HeadIsMember(sh.order);
      match Candidate(sh.policy)
      case None => sh
      case Some(victim) => Enforce(Remove(sh, victim, Evict))
  }

  function ExpiredKeys(sh: Shard, now: real): (r: seq<Key>)
    ensures forall k :: k in r <==> k in sh.order && k in sh.entries && Expired(sh.entries[k], now)
  {
    Keep(sh.order, set k | k in sh.entries && Expired(sh.entries[k], now))
  }

  function ExpireAll(sh: Shard, now: real): (r: Shard)
    ensures Tracked(sh) ==> Tracked(r)
    ensures |r.order| <= |sh.order| && r.capacity == sh.capacity
    ensures KindOf(r.policy) == KindOf(sh.policy)
  {
    RemoveAll(sh, ExpiredKeys(sh, now), Expire)
  }

  function LazyExpire(sh: Shard, k: Key, now: real): (r: Shard)
    ensures Tracked(sh) ==> Tracked(r)
    ensures |r.order| <= |sh.order| && r.capacity == sh.capacity && r.pending == sh.pending
    ensures KindOf(r.policy) == KindOf(sh.policy)
  {
    if k in sh.entries && Expired(sh.entries[k], now) then Remove(sh, k, Expire) else sh
  }

  // ---------------------------------------------------------------- client calls

  predicate ValidTtl(ttl: TtlArg) {
    ttl.Seconds? ==> ttl.seconds > 0.0
  }

  function ResolveTtl(existing: Option<Entry>, ttl: TtlArg, now: real, defaultTtl: Option<real>)
    : (r: (Option<real>, Option<real>))
  {
    if ttl.Unset? && existing.Some? then (existing.value.ttl, existing.value.expiresAt)
    else
      var chosen := match ttl
        case Unset => defaultTtl
        case NoExpiry => None
        case Seconds(t) => Some(t);
      if chosen.None? || chosen.value <= 0.0 then (None, None)
      else (chosen, Some(now + chosen.value))
  }

  /** The body of `put` between the lazy expiry and the capacity check. */
  function Store(sh: Shard, k: Key, v: Value, ttl: TtlArg, now: real, mode: Mode, defaultTtl: Option<real>)
    : (r: Shard)
    ensures Tracked(sh) ==> Tracked(r)
    ensures r.entries.Keys == sh.entries.Keys + {k}
    ensures forall x :: x in sh.entries && x != k ==> r.entries[x] == sh.entries[x]
    ensures r.capacity == sh.capacity && r.pending == sh.pending
    ensures r.order == if k in sh.entries then sh.order else sh.order + [k]
    ensures r.policy == OnPut(sh.policy, k) && KindOf(r.policy) == KindOf(sh.policy)
  {
    NoDupSnoc(sh.order, k);
    var existing := Lookup(sh, k);
    var version := Get(sh.marks, k) + 1;
    var (life, deadline) := ResolveTtl(existing, ttl, now, defaultTtl);
    var entry := Entry(
      v,
      if existing.None? then now else existing.value.createdAt,
      now,
      if existing.None? then 0 else existing.value.hitCount,
      deadline,
      life,
      version,
      mode.WriteBack?);
    sh.(marks := sh.marks[k := version],
        tombs := sh.tombs - {k},
        order := if k in sh.entries then sh.order else sh.order + [k],
        entries := sh.entries[k := entry],
        policy := OnPut(sh.policy, k),
        stats := sh.stats.(puts := sh.stats.puts + 1))
  }

  /** The entry is stored and the capacity enforced, which may evict the key itself. */
  function StoreWithin(sh: Shard, k: Key, v: Value, ttl: TtlArg, now: real, mode: Mode, defaultTtl: Option<real>)
    : (r: Shard)
    ensures Tracked(sh) ==> ShardOk(r)
    ensures r.capacity == sh.capacity && KindOf(r.policy) == KindOf(sh.policy) && r.pending == sh.pending
  {
    Enforce(Store(LazyExpire(sh, k, now), k, v, ttl, now, mode, defaultTtl))
  }

  /** The locked region of `put`.  The write-back job it returns carries `PutVersion`. */
  function Put(sh: Shard, k: Key, v: Value, ttl: TtlArg, now: real, mode: Mode, defaultTtl: Option<real>)
    : (r: Shard)
    ensures Tracked(sh) ==> ShardOk(r)
    ensures r.capacity == sh.capacity && KindOf(r.policy) == KindOf(sh.policy)
  {
    var kept := StoreWithin(sh, k, v, ttl, now, mode, defaultTtl);
    if mode.WriteBack? then
      assert Tracked(sh) ==> ShardOk(Register(kept, k));
      Register(kept, k)
    else kept
  }

  /** A write-back put counts the flush it is about to enqueue. */
  lemma PutPending(sh: Shard, k: Key, v: Value, ttl: TtlArg, now: real, defaultTtl: Option<real>)
    ensures Put(sh, k, v, ttl, now, WriteBack, defaultTtl).pending == sh.pending[k := Get(sh.pending, k) + 1]
  {
    RegisterPends(sh, StoreWithin(sh, k, v, ttl, now, WriteBack, defaultTtl), k);
  }

  lemma RegisterPends(sh: Shard, kept: Shard, k: Key)
    requires kept.pending == sh.pending
    ensures Register(kept, k).pending == sh.pending[k := Get(sh.pending, k) + 1]
  {
  }

  function PutVersion(sh: Shard, k: Key, now: real): nat {
    Get(LazyExpire(sh, k, now).marks, k) + 1
  }

  /** The tombstone, its version and its pending flush. */
  function Note(sh: Shard, k: Key): Shard {
    var version := Get(sh.marks, k) + 1;
    Register(sh.(marks := sh.marks[k := version], tombs := sh.tombs[k := version]), k)
  }

  /** The locked region of `delete`, which `clear` repeats for each key of a shard. */
  function Delete(sh: Shard, k: Key, mode: Mode): (r: Shard)
    ensures Tracked(sh) ==> Tracked(r)
    ensures forall x :: x in r.entries <==> x in sh.entries && x != k
    ensures forall x :: x in r.entries ==> r.entries[x] == sh.entries[x]
    ensures r.order == Without(sh.order, k)
    ensures |r.order| <= |sh.order| && r.capacity == sh.capacity
    ensures KindOf(r.policy) == KindOf(sh.policy)
  {
    var dropped := Remove(if mode.WriteBack? then Note(sh, k) else sh, k, Drop);
    if k in sh.entries then dropped.(stats := dropped.stats.(deletes := dropped.stats.deletes + 1))
    else dropped
  }

  function DeleteAll(sh: Shard, ks: seq<Key>, mode: Mode): (r: Shard)
    ensures Tracked(sh) ==> Tracked(r)
    ensures forall x :: x in r.entries <==> x in sh.entries && x !in ks
    ensures |r.order| <= |sh.order| && r.capacity == sh.capacity
    ensures KindOf(r.policy) == KindOf(sh.policy)
    decreases |ks|
  {
    if ks == [] then sh
    else
      assert forall x :: x in ks <==> x == ks[0] || x in ks[1..];
      DeleteAll(Delete(sh, ks[0], mode), ks[1..], mode)
  }

  /** The locked region of `clear` for one shard. */
  function Clear(sh: Shard, mode: Mode): Shard {
    var emptied := DeleteAll(sh, sh.order, mode);
    emptied.(policy := Fresh(KindOf(emptied.policy)))
  }

  /** `_read_value_locked`: the value found, if any, and the shard after the read. */
  function Read(sh: Shard, k: Key, touch: bool, now: real): (r: (Option<Value>, Shard)) {
    if k !in sh.entries then (None, sh.(stats := sh.stats.(misses := sh.stats.misses + 1)))
    else if Expired(sh.entries[k], now) then
      var gone := Remove(sh, k, Expire);
      (None, gone.(stats := gone.stats.(misses := gone.stats.misses + 1)))
    else
      var entry := sh.entries[k];
      var seen := if touch
        then sh.(entries := sh.entries[k := entry.(lastAccessedAt := now, hitCount := entry.hitCount + 1)],
                 policy := OnGet(sh.policy, k))
        else sh;
      (Some(entry.value), seen.(stats := seen.stats.(hits := seen.stats.hits + 1)))
  }

  /** The last region of a successful flush: the entry is clean if it is still this version. */
  function MarkClean(sh: Shard, k: Key, version: nat): (r: Shard)
    ensures r == sh.(entries := r.entries) && r.entries.Keys == sh.entries.Keys
    ensures Tracked(sh) ==> Tracked(r)
  {
    if k in sh.entries && sh.entries[k].version == version
    then sh.(entries := sh.entries[k := sh.entries[k].(dirty := false)])
    else sh
  }

  function RestoreHits(sh: Shard, k: Key, hits: nat): Shard {
    if k in sh.entries then sh.(entries := sh.entries[k := sh.entries[k].(hitCount := hits)]) else sh
  }

  // ---------------------------------------------------------------- staleness

  datatype Op = PutOp(value: Value) | DeleteOp

  predicate IsStale(marks: map<Key, nat>, tombs: map<Key, nat>, k: Key, op: Op, version: nat) {
    match op
    case PutOp(_) => Get(marks, k) != version || (k in tombs && tombs[k] >= version)
    case DeleteOp => Get(marks, k) != version || k !in tombs || tombs[k] != version
  }

  // ---------------------------------------------------------------- laws of one shard

  lemma {:induction false} ClearEmpties(sh: Shard, mode: Mode)
    requires Tracked(sh)
    ensures ShardOk(Clear(sh, mode)) && Clear(sh, mode).entries == map[] && Clear(sh, mode).order == []
  {
    var emptied := DeleteAll(sh, sh.order, mode);
    assert forall k :: k !in emptied.order;
    assert emptied.entries.Keys == {};
    HeadIsMember(emptied.order);
  }

  lemma ReadOk(sh: Shard, k: Key, touch: bool, now: real)
    requires ShardOk(sh)
    ensures ShardOk(Read(sh, k, touch, now).1)
  {
    if k in sh.entries && Expired(sh.entries[k], now) {
      assert Tracked(Remove(sh, k, Expire));
    }
  }
}
