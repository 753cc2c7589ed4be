/**
  A shard refines a lossy map with deadlines.  The map, what a request does to it, what it
  answers and what it counts are defined without the shard: a request drops the entries past
  their deadline that it meets, and one more when a new key meets a full map.
 */
module TtlMap {
  import opened Prelude
  import opened Policies
  import opened Shards
  import opened Capacity
  import opened ShardRuns

  // ---------------------------------------------------------------- the lossy map

  /** What `inspect` shows of an entry, but for its version and dirty mark. */
  datatype Slot = Slot(
    value: Value,
    deadline: Option<real>,
    life: Option<real>,
    created: real,
    accessed: real,
    hits: nat)

  predicate Past(slot: Slot, now: real) {
    slot.deadline.Some? && slot.deadline.value <= now
  }

  predicate Live(m: map<Key, Slot>, k: Key, now: real) {
    k in m && !Past(m[k], now)
  }

  /** What a read of `k` finds. */
  function Find(m: map<Key, Slot>, k: Key, now: real): Option<Value> {
    if Live(m, k, now) then Some(m[k].value) else None
  }

  /** A lifetime that starts at `now`; zero or less means no expiry. */
  function From(life: Option<real>, now: real): Option<real> {
    if life.Some? && life.value > 0.0 then Some(now + life.value) else None
  }

  /** An update without ttl keeps the deadline of a live key. */
  function NewDeadline(m: map<Key, Slot>, k: Key, ttl: TtlArg, now: real, defaultTtl: Option<real>): Option<real> {
    match ttl
    case Seconds(t) => From(Some(t), now)
    case NoExpiry => None
    case Unset => if Live(m, k, now) then m[k].deadline else From(defaultTtl, now)
  }

  /** The lifetime an entry is said to have; an update without ttl keeps that of a live key. */
  function NewLife(m: map<Key, Slot>, k: Key, ttl: TtlArg, now: real, defaultTtl: Option<real>): Option<real> {
    match ttl
    case Seconds(t) => Some(t)
    case NoExpiry => None
    case Unset =>
      if Live(m, k, now) then m[k].life
      else if defaultTtl.Some? && defaultTtl.value > 0.0 then defaultTtl else None
  }

  /** A put of a live key updates it: its age and its hits stay. */
  function NewSlot(m: map<Key, Slot>, k: Key, v: Value, ttl: TtlArg, now: real, defaultTtl: Option<real>): Slot {
    var live := Live(m, k, now);
    Slot(v, NewDeadline(m, k, ttl, now, defaultTtl), NewLife(m, k, ttl, now, defaultTtl),
         if live then m[k].created else now, now, if live then m[k].hits else 0)
  }

  /** A put that is carried out: its ttl is valid. */
  predicate Stores(req: Request) {
    req.PutReq? && ValidTtl(req.ttl)
  }

  /** The map a request asks for. */
  function Asked(m: map<Key, Slot>, req: Request, defaultTtl: Option<real>): map<Key, Slot> {
    match req
    case PutReq(k, v, ttl, now) => if ValidTtl(ttl) then m[k := NewSlot(m, k, v, ttl, now, defaultTtl)] else m
    case GetReq(k, now) => if Live(m, k, now) then m[k := m[k].(accessed := now, hits := m[k].hits + 1)] else m
    case DeleteReq(k, _) => m - {k}
    case ClearReq(_) => map[]
    case _ => m
  }

  /** A request looks at entry `k` and drops it if it is past its deadline. */
  predicate Meets(req: Request, k: Key) {
    match req
    case PutReq(j, _, ttl, _) => j == k && ValidTtl(ttl)
    case GetReq(j, _) => j == k
    case ContainsReq(j, _) => j == k
    case InspectReq(j, _) => j == k
    case DumpReq(_) => true
    case ExpireReq(_) => true
    case _ => false
  }

  /** The entries of `m` that the request finds past their deadline. */
  function Found(m: map<Key, Slot>, req: Request): set<Key> {
    set k | k in m && Meets(req, k) && Past(m[k], req.now)
  }

  /** The map a request leaves if nothing is evicted. */
  function Exact(m: map<Key, Slot>, req: Request, defaultTtl: Option<real>): map<Key, Slot> {
    if Stores(req) then Asked(m, req, defaultTtl) else Asked(m, req, defaultTtl) - Found(m, req)
  }

  /** A new key meets a full map. */
  predicate Crowds(c: Setting, m: map<Key, Slot>, req: Request) {
    Stores(req) && req.key !in m && |m| == c.capacity
  }

  /** One step of the lossy map: exactly one key is evicted when a new key meets a full map, and none otherwise. */
  ghost predicate Allowed(c: Setting, m: map<Key, Slot>, req: Request, m': map<Key, Slot>) {
    var exact := Exact(m, req, c.defaultTtl);
    if Crowds(c, m, req) then exists victim :: victim in exact && m' == exact - {victim} else m' == exact
  }

  /** The snapshot shows the whole slot, and the time that is left. */
  predicate Shows(snapshot: Snapshot, slot: Slot, now: real) {
    && SlotOf(snapshot.entry) == slot
    && snapshot.remaining ==
       (match slot.deadline case None => None case Some(d) => Some(if d > now then d - now else 0.0))
  }

  /** `dump` lists the live keys, each once, each with its snapshot. */
  ghost predicate Lists(m: map<Key, Slot>, snapshots: seq<Snapshot>, now: real) {
    && (forall i, j :: 0 <= i < j < |snapshots| ==> snapshots[i].key != snapshots[j].key)
    && (forall i :: 0 <= i < |snapshots| ==>
          Live(m, snapshots[i].key, now) && Shows(snapshots[i], m[snapshots[i].key], now))
    && forall k :: Live(m, k, now) ==> exists i :: 0 <= i < |snapshots| && snapshots[i].key == k
  }

  /** The reply a map gives. */
  ghost predicate Answers(m: map<Key, Slot>, req: Request, reply: Reply) {
    match req
    case GetReq(k, now) => reply == Reply.Found(Find(m, k, now))
    case ContainsReq(k, now) => reply == Present(Live(m, k, now))
    case InspectReq(k, now) =>
      && reply.Inspected? && (reply.snapshot.Some? <==> Live(m, k, now))
      && (reply.snapshot.Some? ==> reply.snapshot.value.key == k && Shows(reply.snapshot.value, m[k], now))
    case DumpReq(now) => reply.Dumped? && Lists(m, reply.snapshots, now)
    case SizeReq(_) => reply == Size(|m|)
    case DeleteReq(k, _) => reply == Existed(k in m)
    case PutReq(_, _, _, _) => reply == Done
    case ClearReq(_) => reply == Done
    case ExpireReq(_) => reply == Done
  }

  /** What a request adds to the statistics. */
  function Tally(c: Setting, m: map<Key, Slot>, req: Request): Stats {
    var looked := req.GetReq? || req.ContainsReq?;
    Stats(
      if looked && Live(m, req.key, req.now) then 1 else 0,
      if looked && !Live(m, req.key, req.now) then 1 else 0,
      if Stores(req) then 1 else 0,
      if req.ClearReq? then |m| else if req.DeleteReq? && req.key in m then 1 else 0,
      if Crowds(c, m, req) then 1 else 0,
      |Found(m, req)|)
  }

  function Plus(a: Stats, b: Stats): Stats {
    Stats(a.hits + b.hits, a.misses + b.misses, a.puts + b.puts, a.deletes + b.deletes,
          a.evictions + b.evictions, a.expirations + b.expirations)
  }

  ghost predicate LossyRun(c: Setting, reqs: seq<Request>, ms: seq<map<Key, Slot>>) {
    && |ms| == |reqs| + 1 && ms[0] == map[]
    && forall i :: 0 <= i < |reqs| ==> Allowed(c, ms[i], reqs[i], ms[i + 1])
  }

  /** The statistics of a run. */
  function TallyAll(c: Setting, reqs: seq<Request>, ms: seq<map<Key, Slot>>): Stats
    requires |reqs| <= |ms|
  {
    if reqs == [] then ZERO_STATS
    else
      var n := |reqs| - 1;
      Plus(TallyAll(c, reqs[..n], ms), Tally(c, ms[n], reqs[n]))
  }

  // ---------------------------------------------------------------- laws of every lossy run

  /** The value of the latest put of `k` since its last delete. */
  function Latest(reqs: seq<Request>, k: Key): Option<Value> {
    if reqs == [] then None
    else
      var before := Latest(reqs[..|reqs| - 1], k);
      match reqs[|reqs| - 1]
      case PutReq(j, v, ttl, _) => if j == k && ValidTtl(ttl) then Some(v) else before
      case DeleteReq(j, _) => if j == k then None else before
      case ClearReq(_) => None
      case _ => before
  }

  lemma {:induction false} LossyValue(c: Setting, reqs: seq<Request>, ms: seq<map<Key, Slot>>, n: nat, k: Key)
    requires LossyRun(c, reqs, ms) && n <= |reqs| && k in ms[n]
    ensures Latest(reqs[..n], k) == Some(ms[n][k].value)
  {
    if n > 0 {
      assert Allowed(c, ms[n - 1], reqs[n - 1], ms[n - 1 + 1]);
      assert reqs[..n][..n - 1] == reqs[..n - 1];
      if k in ms[n - 1] { LossyValue(c, reqs, ms, n - 1, k); }
    }
  }

  /** A request sets the deadline of `k`: a put with an explicit ttl, or of a key that is not live. */
  predicate SetsIn(m: map<Key, Slot>, req: Request, k: Key) {
    Stores(req) && req.key == k && (!req.ttl.Unset? || !Live(m, k, req.now))
  }

  predicate Sets(reqs: seq<Request>, ms: seq<map<Key, Slot>>, i: nat, k: Key)
    requires i < |reqs| && i < |ms|
  {
    SetsIn(ms[i], reqs[i], k)
  }

  /** The deadline a put sets by itself. */
  function OwnDeadline(req: Request, defaultTtl: Option<real>): Option<real>
    requires req.PutReq?
  {
    match req.ttl
    case Seconds(t) => From(Some(t), req.now)
    case NoExpiry => None
    case Unset => From(defaultTtl, req.now)
  }

  predicate Erases(req: Request, k: Key) {
    req.ClearReq? || (req.DeleteReq? && req.key == k)
  }

  /** `i` is the latest request that set the deadline of `k`, and nothing erased the key since. */
  ghost predicate LastSet(reqs: seq<Request>, ms: seq<map<Key, Slot>>, n: nat, i: nat, k: Key)
    requires n <= |reqs| < |ms|
  {
    i < n && Sets(reqs, ms, i, k) && forall j :: i < j < n ==> !Sets(reqs, ms, j, k) && !Erases(reqs[j], k)
  }

  lemma ExactDeadline(m: map<Key, Slot>, req: Request, defaultTtl: Option<real>, exact: map<Key, Slot>, k: Key)
    requires exact == Exact(m, req, defaultTtl) && k in exact
    ensures if SetsIn(m, req, k) then exact[k].deadline == OwnDeadline(req, defaultTtl)
            else k in m && exact[k].deadline == m[k].deadline && !Erases(req, k)
  {
  }

  lemma StepDeadline(c: Setting, m: map<Key, Slot>, req: Request, m': map<Key, Slot>, k: Key)
    requires Allowed(c, m, req, m') && k in m'
    ensures if SetsIn(m, req, k) then m'[k].deadline == OwnDeadline(req, c.defaultTtl)
            else k in m && m'[k].deadline == m[k].deadline && !Erases(req, k)
  {
    ExactDeadline(m, req, c.defaultTtl, Exact(m, req, c.defaultTtl), k);
  }

  /** The deadline is that of the latest explicit ttl or fresh insertion: updates without ttl never move it. */
  lemma {:induction false} LossyDeadline(c: Setting, reqs: seq<Request>, ms: seq<map<Key, Slot>>, n: nat, k: Key)
    returns (i: nat)
    requires LossyRun(c, reqs, ms) && n <= |reqs| && k in ms[n]
    ensures LastSet(reqs, ms, n, i, k) && ms[n][k].deadline == OwnDeadline(reqs[i], c.defaultTtl)
  {
    assert Allowed(c, ms[n - 1], reqs[n - 1], ms[n - 1 + 1]);
    StepDeadline(c, ms[n - 1], reqs[n - 1], ms[n], k);
    if Sets(reqs, ms, n - 1, k) {
      i := n - 1;
    } else {
      i := LossyDeadline(c, reqs, ms, n - 1, k);
    }
  }

  /** The map of an unbounded cache that never looks at its clock, from the requests alone. */
  function Ideal(reqs: seq<Request>, defaultTtl: Option<real>): map<Key, Slot> {
    if reqs == [] then map[]
    else Asked(Ideal(reqs[..|reqs| - 1], defaultTtl), reqs[|reqs| - 1], defaultTtl)
  }

  /** `m` is `full` without some entries that are past by `now`. */
  ghost predicate MinusPast(m: map<Key, Slot>, full: map<Key, Slot>, now: real) {
    && (forall k :: k in m ==> k in full && m[k] == full[k])
    && (forall k :: k in full && k !in m ==> Past(full[k], now))
  }

  lemma AskedMinusPast(m: map<Key, Slot>, full: map<Key, Slot>, req: Request, defaultTtl: Option<real>, t: real)
    requires MinusPast(m, full, t) && t <= req.now
    ensures MinusPast(Exact(m, req, defaultTtl), Asked(full, req, defaultTtl), req.now)
  {
  }

  /** A lossy run without evictions is the ideal map up to entries past their deadline. */
  lemma {:induction false} LossyIsIdeal(c: Setting, reqs: seq<Request>, ms: seq<map<Key, Slot>>, n: nat, now: real)
    requires LossyRun(c, reqs, ms) && n <= |reqs| && Monotonic(reqs)
    requires forall i :: 0 <= i < n ==> !Crowds(c, ms[i], reqs[i])
    requires n > 0 ==> reqs[n - 1].now <= now
    ensures MinusPast(ms[n], Ideal(reqs[..n], c.defaultTtl), now)
  {
    if n > 0 {
      assert Allowed(c, ms[n - 1], reqs[n - 1], ms[n - 1 + 1]);
      assert reqs[..n][..n - 1] == reqs[..n - 1];
      LossyIsIdeal(c, reqs, ms, n - 1, reqs[n - 1].now);
      AskedMinusPast(ms[n - 1], Ideal(reqs[..n - 1], c.defaultTtl), reqs[n - 1], c.defaultTtl, reqs[n - 1].now);
    }
  }

  // ---------------------------------------------------------------- the shard refines the map

  function SlotOf(e: Entry): Slot {
    Slot(e.value, e.expiresAt, e.ttl, e.createdAt, e.lastAccessedAt, e.hitCount)
  }

  function View(sh: Shard): map<Key, Slot> {
    map k | k in sh.entries :: SlotOf(sh.entries[k])
  }

  lemma ViewSize(sh: Shard)
    requires Tracked(sh)
    ensures |View(sh)| == |sh.order|
  {
    NoDupCardinality(sh.order);
    assert View(sh).Keys == Elems(sh.order);
    assert |View(sh)| == |View(sh).Keys|;
  }

  /** `sh'` has no entry that `sh` has not, up to recency and hit counts. */
  ghost predicate Shrunk(sh: Shard, sh': Shard) {
    forall x :: x in sh'.entries ==>
      && x in sh.entries
      && sh'.entries[x].value == sh.entries[x].value
      && sh'.entries[x].expiresAt == sh.entries[x].expiresAt
  }

  lemma StoredEntry(sh: Shard, k: Key, v: Value, ttl: TtlArg, now: real, mode: Mode, defaultTtl: Option<real>)
    ensures var stored := Stored(sh, k, v, ttl, now, mode, defaultTtl);
            && k in stored.entries
            && stored.entries[k].value == v
            && stored.entries[k].expiresAt ==
               (match ttl
                case Seconds(t) => From(Some(t), now)
                case NoExpiry => None
                case Unset => if Visible(sh, k, now).None? then From(defaultTtl, now) else sh.entries[k].expiresAt)
            && stored.entries.Keys == sh.entries.Keys + {k}
            && forall x :: x in sh.entries && x != k ==> stored.entries[x] == sh.entries[x]
  {
  }

  lemma ReadShrinks(sh: Shard, k: Key, touch: bool, now: real)
    ensures Shrunk(sh, Read(sh, k, touch, now).1)
  {
  }

  lemma ServeShrinks(c: Setting, sh: Shard, req: Request)
    requires !Stores(req)
    ensures Shrunk(sh, Serve(c, sh, req).1)
    ensures req.DeleteReq? ==> req.key !in Serve(c, sh, req).1.entries
  {
    match req
    case ClearReq(_) => DeleteAllShrinks(sh, sh.order, c.mode);
    case GetReq(k, now) => ReadShrinks(sh, k, true, now);
    case ContainsReq(k, now) => ReadShrinks(sh, k, false, now);
    case DeleteReq(_, _) =>
    case InspectReq(_, _) =>
    case DumpReq(_) =>
    case SizeReq(_) =>
    case ExpireReq(_) =>
    case PutReq(_, _, _, _) =>
  }

  lemma {:induction false} DeleteAllShrinks(sh: Shard, ks: seq<Key>, mode: Mode)
    ensures Shrunk(sh, DeleteAll(sh, ks, mode))
    decreases |ks|
  {
    if ks != [] { DeleteAllShrinks(Delete(sh, ks[0], mode), ks[1..], mode); }
  }

  lemma {:induction false} RemoveAllEvictions(sh: Shard, ks: seq<Key>)
    ensures RemoveAll(sh, ks, Expire).stats.evictions == sh.stats.evictions
    decreases |ks|
  {
    if ks != [] { RemoveAllEvictions(Remove(sh, ks[0], Expire), ks[1..]); }
  }

  lemma {:induction false} DeleteAllEvictions(sh: Shard, ks: seq<Key>, mode: Mode)
    ensures DeleteAll(sh, ks, mode).stats.evictions == sh.stats.evictions
    decreases |ks|
  {
    if ks != [] { DeleteAllEvictions(Delete(sh, ks[0], mode), ks[1..], mode); }
  }

  /** The eviction counter only grows. */
  lemma EvictionsGrow(c: Setting, sh: Shard, req: Request)
    requires ShardOk(sh)
    ensures Serve(c, sh, req).1.stats.evictions >= sh.stats.evictions
  {
    if Stores(req) {
      PutEvictsCandidate(sh, req.key, req.value, req.ttl, req.now, c.mode, c.defaultTtl);
    } else {
      OtherEvictions(c, sh, req);
    }
  }

  lemma OtherEvictions(c: Setting, sh: Shard, req: Request)
    requires !Stores(req)
    ensures Serve(c, sh, req).1.stats.evictions == sh.stats.evictions
  {
    match req
    case PutReq(_, _, _, _) =>
    case DumpReq(now) => RemoveAllEvictions(sh, ExpiredKeys(sh, now));
    case ExpireReq(now) => RemoveAllEvictions(sh, ExpiredKeys(sh, now));
    case ClearReq(_) => DeleteAllEvictions(sh, sh.order, c.mode);
    case GetReq(k, now) => ReadEvictions(sh, k, true, now);
    case ContainsReq(k, now) => ReadEvictions(sh, k, false, now);
    case InspectReq(k, now) => RemoveAllEvictions(sh, [k]);
    case DeleteReq(k, _) => DeleteAllEvictions(sh, [k], c.mode);
    case SizeReq(_) =>
  }

  lemma ReadEvictions(sh: Shard, k: Key, touch: bool, now: real)
    ensures Read(sh, k, touch, now).1.stats.evictions == sh.stats.evictions
  {
  }

  lemma StoredView(sh: Shard, k: Key, v: Value, ttl: TtlArg, now: real, mode: Mode, defaultTtl: Option<real>)
    requires ValidTtl(ttl)
    ensures View(Stored(sh, k, v, ttl, now, mode, defaultTtl)) == Asked(View(sh), PutReq(k, v, ttl, now), defaultTtl)
  {
    StoredEntry(sh, k, v, ttl, now, mode, defaultTtl);
    StoredSlot(sh, k, v, ttl, now, mode, defaultTtl);
    UpdatedView(sh, Stored(sh, k, v, ttl, now, mode, defaultTtl), k);
  }

  lemma StoredSlot(sh: Shard, k: Key, v: Value, ttl: TtlArg, now: real, mode: Mode, defaultTtl: Option<real>)
    requires ValidTtl(ttl)
    ensures var stored := Stored(sh, k, v, ttl, now, mode, defaultTtl);
            k in stored.entries && SlotOf(stored.entries[k]) == NewSlot(View(sh), k, v, ttl, now, defaultTtl)
  {
    var expired := LazyExpire(sh, k, now);
    LazyLookup(sh, k, now);
    EntrySlot(expired, k, v, ttl, now, mode, defaultTtl);
    SlotFrom(View(sh), Visible(sh, k, now), k, v, ttl, now, defaultTtl);
  }

  lemma LazyLookup(sh: Shard, k: Key, now: real)
    ensures Lookup(LazyExpire(sh, k, now), k) == Visible(sh, k, now)
    ensures match Visible(sh, k, now)
            case None => !Live(View(sh), k, now)
            case Some(e) => Live(View(sh), k, now) && View(sh)[k] == SlotOf(e)
  {
  }

  lemma SlotFrom(m: map<Key, Slot>, before: Option<Entry>, k: Key, v: Value, ttl: TtlArg, now: real,
                 defaultTtl: Option<real>)
    requires ValidTtl(ttl)
    requires match before
             case None => !Live(m, k, now)
             case Some(e) => Live(m, k, now) && m[k] == SlotOf(e)
    ensures var (life, deadline) := ResolveTtl(before, ttl, now, defaultTtl);
            NewSlot(m, k, v, ttl, now, defaultTtl) ==
              Slot(v, deadline, life, if before.Some? then before.value.createdAt else now, now,
                   if before.Some? then before.value.hitCount else 0)
  {
  }

  lemma EntrySlot(sh: Shard, k: Key, v: Value, ttl: TtlArg, now: real, mode: Mode, defaultTtl: Option<real>)
    ensures var stored := Store(sh, k, v, ttl, now, mode, defaultTtl);
            var before := Lookup(sh, k);
            var (life, deadline) := ResolveTtl(before, ttl, now, defaultTtl);
            k in stored.entries && SlotOf(stored.entries[k]) ==
              Slot(v, deadline, life, if before.Some? then before.value.createdAt else now, now,
                   if before.Some? then before.value.hitCount else 0)
  {
  }

  lemma UpdatedView(sh: Shard, sh': Shard, k: Key)
    requires sh'.entries.Keys == sh.entries.Keys + {k}
    requires forall x :: x in sh.entries && x != k ==> sh'.entries[x] == sh.entries[x]
    ensures View(sh') == View(sh)[k := SlotOf(sh'.entries[k])]
  {
  }

  lemma SameView(a: Shard, b: Shard)
    requires a.entries == b.entries
    ensures View(a) == View(b)
  {
  }

  lemma LessView(a: Shard, b: Shard, gone: set<Key>)
    requires forall k :: k in a.entries <==> k in b.entries && k !in gone
    requires forall k :: k in a.entries ==> a.entries[k] == b.entries[k]
    ensures View(a) == View(b) - gone
  {
  }

  /** A put leaves the map it asks for, or that map without the evicted key. */
  lemma PutView(c: Setting, sh: Shard, req: Request, sh': Shard) returns (victim: Option<Key>)
    requires ShardOk(sh) && Stores(req) && sh' == Serve(c, sh, req).1
    ensures victim.Some? <==> Overflows(sh, req.key)
    ensures sh'.stats.evictions == sh.stats.evictions <==> victim.None?
    ensures var full := Asked(View(sh), req, c.defaultTtl);
            if victim.Some? then victim.value in full && View(sh') == full - {victim.value} else View(sh') == full
  {
    var k, v, ttl, now := req.key, req.value, req.ttl, req.now;
    var stored := Stored(sh, k, v, ttl, now, c.mode, c.defaultTtl);
    assert sh' == Put(sh, k, v, ttl, now, c.mode, c.defaultTtl);
    StoredView(sh, k, v, ttl, now, c.mode, c.defaultTtl);
    PutEvictsCandidate(sh, k, v, ttl, now, c.mode, c.defaultTtl);
    if Overflows(sh, k) {
      victim := Candidate(stored.policy);
      LessView(sh', stored, {victim.value});
      assert victim.value in View(stored);
    } else {
      victim := None;
      SameView(sh', stored);
    }
  }

  lemma ReadView(sh: Shard, k: Key, touch: bool, now: real)
    ensures View(Read(sh, k, touch, now).1) ==
              if !Live(View(sh), k, now) then View(sh) - {k}
              else if touch then View(sh)[k := View(sh)[k].(accessed := now, hits := View(sh)[k].hits + 1)]
              else View(sh)
  {
    var sh' := Read(sh, k, touch, now).1;
    if k in sh.entries && !Expired(sh.entries[k], now) {
      UpdatedView(sh, sh', k);
    } else {
      LessView(sh', sh, {k});
    }
  }

  lemma SweptEntries(sh: Shard, now: real, swept: Shard)
    requires Tracked(sh) && swept == ExpireAll(sh, now)
    ensures forall k :: k in swept.entries <==> k in sh.entries && !Expired(sh.entries[k], now)
    ensures forall k :: k in swept.entries ==> swept.entries[k] == sh.entries[k]
  {
    var ks := ExpiredKeys(sh, now);
    assert swept == RemoveAll(sh, ks, Expire);
  }

  lemma PastIsExpired(sh: Shard, now: real)
    ensures (set k | k in View(sh) && Past(View(sh)[k], now)) == set k | k in sh.entries && Expired(sh.entries[k], now)
  {
  }

  lemma SweptView(sh: Shard, now: real)
    requires Tracked(sh)
    ensures View(ExpireAll(sh, now)) == View(sh) - set k | k in View(sh) && Past(View(sh)[k], now)
  {
    SweptEntries(sh, now, ExpireAll(sh, now));
    PastIsExpired(sh, now);
    LessView(ExpireAll(sh, now), sh, set k | k in sh.entries && Expired(sh.entries[k], now));
  }

  lemma InspectedView(sh: Shard, k: Key, now: real)
    ensures View(LazyExpire(sh, k, now)) == if k in View(sh) && Past(View(sh)[k], now) then View(sh) - {k} else View(sh)
  {
    if k in sh.entries && Expired(sh.entries[k], now) { LessView(LazyExpire(sh, k, now), sh, {k}); }
  }

  lemma DeletedView(sh: Shard, k: Key, mode: Mode)
    ensures View(Delete(sh, k, mode)) == View(sh) - {k}
  {
    LessView(Delete(sh, k, mode), sh, {k});
  }

  lemma LookView(c: Setting, sh: Shard, req: Request)
    requires req.GetReq? || req.ContainsReq? || req.InspectReq?
    ensures View(Serve(c, sh, req).1) == Exact(View(sh), req, c.defaultTtl)
  {
    var m := View(sh);
    FoundOne(m, req, req.key);
    match req
    case GetReq(k, now) => ReadView(sh, k, true, now);
    case ContainsReq(k, now) => ReadView(sh, k, false, now);
    case InspectReq(k, now) => InspectedView(sh, k, now);
  }

  lemma SweepView(c: Setting, sh: Shard, req: Request)
    requires Tracked(sh) && (req.DumpReq? || req.ExpireReq?)
    ensures View(Serve(c, sh, req).1) == Exact(View(sh), req, c.defaultTtl)
  {
    SweptView(sh, req.now);
    FoundAll(View(sh), req);
  }

  lemma ExactErase(m: map<Key, Slot>, req: Request, defaultTtl: Option<real>)
    requires req.DeleteReq? || req.ClearReq?
    ensures Exact(m, req, defaultTtl) == if req.DeleteReq? then m - {req.key} else map[]
  {
    FoundNone(m, req);
  }

  lemma EraseView(c: Setting, sh: Shard, req: Request)
    requires Tracked(sh) && (req.DeleteReq? || req.ClearReq?)
    ensures View(Serve(c, sh, req).1) == Exact(View(sh), req, c.defaultTtl)
  {
    ExactErase(View(sh), req, c.defaultTtl);
    if req.DeleteReq? { DeletedView(sh, req.key, c.mode); } else { ClearedView(sh, c.mode); }
  }

  lemma IdleView(c: Setting, sh: Shard, req: Request)
    requires req.SizeReq? || (req.PutReq? && !Stores(req))
    ensures View(Serve(c, sh, req).1) == Exact(View(sh), req, c.defaultTtl)
  {
    FoundNone(View(sh), req);
  }

  lemma ClearedView(sh: Shard, mode: Mode)
    requires Tracked(sh)
    ensures View(Clear(sh, mode)) == map[]
  {
    ClearEmpties(sh, mode);
  }

  /** Any other request leaves exactly the map it asks for. */
  lemma OtherView(c: Setting, sh: Shard, req: Request)
    requires ShardOk(sh) && !Stores(req)
    ensures View(Serve(c, sh, req).1) == Exact(View(sh), req, c.defaultTtl)
  {
    if req.GetReq? || req.ContainsReq? || req.InspectReq? {
      LookView(c, sh, req);
    } else if req.DumpReq? || req.ExpireReq? {
      SweepView(c, sh, req);
    } else if req.SizeReq? || req.PutReq? {
      IdleView(c, sh, req);
    } else {
      EraseView(c, sh, req);
    }
  }

  lemma FoundOne(m: map<Key, Slot>, req: Request, k: Key)
    requires (req.GetReq? || req.ContainsReq? || req.InspectReq?) && req.key == k
    ensures Found(m, req) == if k in m && Past(m[k], req.now) then {k} else {}
  {
  }

  lemma FoundAll(m: map<Key, Slot>, req: Request)
    requires req.DumpReq? || req.ExpireReq?
    ensures Found(m, req) == set k | k in m && Past(m[k], req.now)
  {
  }

  lemma FoundNone(m: map<Key, Slot>, req: Request)
    requires req.DeleteReq? || req.ClearReq? || req.SizeReq? || (req.PutReq? && !Stores(req))
    ensures Found(m, req) == {}
  {
  }

  lemma KeptKeys(sh: Shard, now: real, ks: seq<Key>)
    requires Tracked(sh) && ks == Keep(sh.order, Unexpired(sh, now))
    ensures forall i, j :: 0 <= i < j < |ks| ==> ks[i] != ks[j]
    ensures forall k :: k in ks <==> k in sh.entries && !Expired(sh.entries[k], now)
  {
    KeepNoDup(sh.order, Unexpired(sh, now));
    forall i, j | 0 <= i < j < |ks| ensures ks[i] != ks[j] { NoDupIndices(ks, i, j); }
  }

  lemma ShownSlot(sh: Shard, k: Key, now: real)
    requires k in sh.entries && !Expired(sh.entries[k], now)
    ensures Live(View(sh), k, now) && Shows(SnapshotOf(k, sh.entries[k], now), View(sh)[k], now)
  {
  }

  lemma SnapshotsList(sh: Shard, now: real, ks: seq<Key>, snapshots: seq<Snapshot>)
    requires |snapshots| == |ks| && forall i, j :: 0 <= i < j < |ks| ==> ks[i] != ks[j]
    requires forall k :: k in ks <==> k in sh.entries && !Expired(sh.entries[k], now)
    requires forall i :: 0 <= i < |ks| ==> ks[i] in ks && snapshots[i] == SnapshotOf(ks[i], sh.entries[ks[i]], now)
    ensures Lists(View(sh), snapshots, now)
  {
    forall i | 0 <= i < |snapshots|
      ensures Live(View(sh), snapshots[i].key, now) && Shows(snapshots[i], View(sh)[snapshots[i].key], now)
    {
      ShownSlot(sh, ks[i], now);
    }
    forall k | Live(View(sh), k, now) ensures exists i :: 0 <= i < |snapshots| && snapshots[i].key == k {
      var i :| 0 <= i < |ks| && ks[i] == k;
      assert snapshots[i].key == k;
    }
  }

  lemma DumpLists(sh: Shard, now: real)
    requires Tracked(sh)
    ensures Lists(View(sh), Dump(sh, now), now)
  {
    var ks := Keep(sh.order, Unexpired(sh, now));
    KeptKeys(sh, now, ks);
    SnapshotsList(sh, now, ks, Dump(sh, now));
  }

  lemma ServeAnswers(c: Setting, sh: Shard, req: Request)
    requires ShardOk(sh)
    ensures Answers(View(sh), req, Serve(c, sh, req).0)
  {
    ViewSize(sh);
    if req.DumpReq? { DumpLists(sh, req.now); }
  }

  lemma PutRefines(c: Setting, sh: Shard, req: Request, sh': Shard)
    requires ShardOk(sh) && sh.capacity == c.capacity && Stores(req) && sh' == Serve(c, sh, req).1
    ensures Allowed(c, View(sh), req, View(sh'))
    ensures sh'.stats.evictions == sh.stats.evictions <==> !Crowds(c, View(sh), req)
  {
    var victim := PutView(c, sh, req, sh');
    ViewSize(sh);
    assert victim.Some? <==> Crowds(c, View(sh), req);
  }

  /** Every request is a step of the lossy map and is answered by it. */
  lemma ServeRefines(c: Setting, sh: Shard, req: Request)
    requires ShardOk(sh) && sh.capacity == c.capacity
    ensures Allowed(c, View(sh), req, View(Serve(c, sh, req).1))
    ensures Serve(c, sh, req).1.stats.evictions == sh.stats.evictions <==> !Crowds(c, View(sh), req)
    ensures Answers(View(sh), req, Serve(c, sh, req).0)
  {
    ServeAnswers(c, sh, req);
    if Stores(req) {
      PutRefines(c, sh, req, Serve(c, sh, req).1);
    } else {
      OtherView(c, sh, req);
      OtherEvictions(c, sh, req);
    }
  }

  // ---------------------------------------------------------------- whole runs

  function Views(c: Setting, reqs: seq<Request>): (ms: seq<map<Key, Slot>>)
    ensures |ms| == |reqs| + 1
    ensures forall i :: 0 <= i < |ms| ==> ms[i] == View(After(c, reqs[..i]))
  {
    seq(|reqs| + 1, i requires 0 <= i <= |reqs| => View(After(c, reqs[..i])))
  }

  lemma AfterNext(c: Setting, reqs: seq<Request>, i: nat)
    requires i < |reqs|
    ensures After(c, reqs[..i + 1]) == Serve(c, After(c, reqs[..i]), reqs[i]).1
  {
    assert reqs[..i + 1][..i] == reqs[..i];
  }

  /** Every run of a shard is a run of the lossy map. */
  lemma RunsAreLossy(c: Setting, reqs: seq<Request>)
    requires c.capacity >= 1
    ensures LossyRun(c, reqs, Views(c, reqs))
  {
    var ms := Views(c, reqs);
    assert ms[0] == map[];
    forall i | 0 <= i < |reqs| ensures Allowed(c, ms[i], reqs[i], ms[i + 1]) {
      AlwaysOk(c, reqs[..i]);
      AfterNext(c, reqs, i);
      ServeRefines(c, After(c, reqs[..i]), reqs[i]);
    }
  }

  /**
    A hit returns the value of the latest put since the last delete, strictly before the
    deadline set by the latest put with an explicit ttl or fresh insertion.
   */
  lemma HitsAreCurrent(c: Setting, reqs: seq<Request>, k: Key, now: real)
    requires c.capacity >= 1 && Read(After(c, reqs), k, true, now).0.Some?
    ensures Read(After(c, reqs), k, true, now).0 == Latest(reqs, k)
    ensures exists i: nat ::
              && LastSet(reqs, Views(c, reqs), |reqs|, i, k)
              && (OwnDeadline(reqs[i], c.defaultTtl).Some? ==> now < OwnDeadline(reqs[i], c.defaultTtl).value)
  {
    RunsAreLossy(c, reqs);
    assert reqs[..|reqs|] == reqs;
    LossyValue(c, reqs, Views(c, reqs), |reqs|, k);
    var i := LossyDeadline(c, reqs, Views(c, reqs), |reqs|, k);
  }

  /** An update without ttl of a visible key leaves its deadline alone. */
  lemma UpdateKeepsDeadline(c: Setting, reqs: seq<Request>, k: Key, v: Value, now: real)
    requires c.capacity >= 1 && Visible(After(c, reqs), k, now).Some?
    ensures var after := Serve(c, After(c, reqs), PutReq(k, v, Unset, now)).1;
            k in after.entries && after.entries[k].expiresAt == After(c, reqs).entries[k].expiresAt
  {
    AlwaysOk(c, reqs);
    var sh, req := After(c, reqs), PutReq(k, v, Unset, now);
    var _ := PutView(c, sh, req, Serve(c, sh, req).1);
    assert View(Serve(c, sh, req).1)[k] == NewSlot(View(sh), k, v, Unset, now, c.defaultTtl);
  }

  /** As long as the eviction count is zero, no new key has met a full map. */
  lemma {:induction false} NoEvictionNoCrowd(c: Setting, reqs: seq<Request>, n: nat)
    requires c.capacity >= 1 && n <= |reqs| && After(c, reqs[..n]).stats.evictions == 0
    ensures forall i :: 0 <= i < n ==> !Crowds(c, Views(c, reqs)[i], reqs[i])
  {
    if n > 0 {
      var ms := Views(c, reqs);
      StepUncrowded(c, reqs, n - 1);
      NoEvictionNoCrowd(c, reqs, n - 1);
      forall i | 0 <= i < n ensures !Crowds(c, ms[i], reqs[i]) {
        if i == n - 1 { assert ms[i] == View(After(c, reqs[..n - 1])); }
      }
    }
  }

  lemma StepUncrowded(c: Setting, reqs: seq<Request>, n: nat)
    requires c.capacity >= 1 && n < |reqs| && After(c, reqs[..n + 1]).stats.evictions == 0
    ensures After(c, reqs[..n]).stats.evictions == 0 && !Crowds(c, View(After(c, reqs[..n])), reqs[n])
  {
    var sh := After(c, reqs[..n]);
    AlwaysOk(c, reqs[..n]);
    AfterNext(c, reqs, n);
    EvictionsGrow(c, sh, reqs[n]);
    ServeRefines(c, sh, reqs[n]);
  }

  /**
    Without evictions the shard answers as the ideal map of its requests: under a clock that
    never runs backwards a read finds a key if and only if it was put, not deleted since, and
    its deadline lies ahead.
   */
  lemma ReadsAreExactWithoutEviction(c: Setting, reqs: seq<Request>, k: Key, now: real)
    requires c.capacity >= 1 && Monotonic(reqs) && After(c, reqs).stats.evictions == 0
    requires reqs != [] ==> reqs[|reqs| - 1].now <= now
    ensures Read(After(c, reqs), k, true, now).0 == Find(Ideal(reqs, c.defaultTtl), k, now)
  {
    ViewIsIdeal(c, reqs, now);
    ReadFinds(After(c, reqs), k, now);
    FindMinusPast(View(After(c, reqs)), Ideal(reqs, c.defaultTtl), k, now);
  }

  /** And `inspect` shows the whole entry as the requests have made it. */
  lemma InspectIsExactWithoutEviction(c: Setting, reqs: seq<Request>, k: Key, now: real)
    requires c.capacity >= 1 && Monotonic(reqs) && After(c, reqs).stats.evictions == 0
    requires reqs != [] ==> reqs[|reqs| - 1].now <= now
    ensures Answers(Ideal(reqs, c.defaultTtl), InspectReq(k, now), Serve(c, After(c, reqs), InspectReq(k, now)).0)
  {
    ViewIsIdeal(c, reqs, now);
    AlwaysOk(c, reqs);
    ServeAnswers(c, After(c, reqs), InspectReq(k, now));
  }

  lemma ViewIsIdeal(c: Setting, reqs: seq<Request>, now: real)
    requires c.capacity >= 1 && Monotonic(reqs) && After(c, reqs).stats.evictions == 0
    requires reqs != [] ==> reqs[|reqs| - 1].now <= now
    ensures MinusPast(View(After(c, reqs)), Ideal(reqs, c.defaultTtl), now)
  {
    var n, ms := |reqs|, Views(c, reqs);
    assert reqs[..n] == reqs;
    RunsAreLossy(c, reqs);
    NoEvictionNoCrowd(c, reqs, n);
    LossyIsIdeal(c, reqs, ms, n, now);
    assert ms[n] == View(After(c, reqs));
  }

  lemma ReadFinds(sh: Shard, k: Key, now: real)
    ensures Read(sh, k, true, now).0 == Find(View(sh), k, now)
  {
  }

  lemma FindMinusPast(m: map<Key, Slot>, full: map<Key, Slot>, k: Key, now: real)
    requires MinusPast(m, full, now)
    ensures Find(m, k, now) == Find(full, k, now)
  {
  }
}
