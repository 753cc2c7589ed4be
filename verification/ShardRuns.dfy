/** Requests served one after another by one shard, as its lock serialises them. */
module ShardRuns {
  import opened Prelude
  import opened Policies
  import opened Shards

  datatype Setting = Setting(capacity: nat, kind: Kind, mode: Mode, defaultTtl: Option<real>)

  /** `now` is what the clock shows when the request holds the lock. */
  datatype Request =
    | PutReq(key: Key, value: Value, ttl: TtlArg, now: real)
    | GetReq(key: Key, now: real)
    | ContainsReq(key: Key, now: real)
    | InspectReq(key: Key, now: real)
    | DumpReq(now: real)
    | SizeReq(now: real)
    | DeleteReq(key: Key, now: real)
    | ClearReq(now: real)
    | ExpireReq(now: real)

  datatype Snapshot = Snapshot(key: Key, entry: Entry, remaining: Option<real>)

  datatype Reply =
    | Done
    | Found(value: Option<Value>)
    | Present(found: bool)
    | Inspected(snapshot: Option<Snapshot>)
    | Dumped(snapshots: seq<Snapshot>)
    | Size(count: nat)
    | Existed(existed: bool)

  function SnapshotOf(k: Key, e: Entry, now: real): Snapshot {
    Snapshot(k, e,
      match e.expiresAt
      case None => None
      case Some(t) => Some(if t - now > 0.0 then t - now else 0.0))
  }

  function Unexpired(sh: Shard, now: real): set<Key> {
    set k | k in sh.entries && !Expired(sh.entries[k], now)
  }

  /** The snapshots `dump` collects from one shard, in backend order. */
  function Snapshots(sh: Shard, ks: seq<Key>, now: real): (r: seq<Snapshot>)
    requires forall k :: k in ks ==> k in sh.entries
    ensures |r| == |ks|
    ensures forall i :: 0 <= i < |ks| ==> r[i] == SnapshotOf(ks[i], sh.entries[ks[i]], now)
  {
    if ks == [] then [] else [SnapshotOf(ks[0], sh.entries[ks[0]], now)] + Snapshots(sh, ks[1..], now)
  }

  function Dump(sh: Shard, now: real): seq<Snapshot> {
    Snapshots(sh, Keep(sh.order, Unexpired(sh, now)), now)
  }

  function Serve(c: Setting, sh: Shard, req: Request): (Reply, Shard) {
    match req
    case PutReq(k, v, ttl, now) =>
      if ValidTtl(ttl) then (Done, Put(sh, k, v, ttl, now, c.mode, c.defaultTtl)) else (Done, sh)
    case GetReq(k, now) =>
      var (value, sh') := Read(sh, k, true, now);
      (Found(value), sh')
    case ContainsReq(k, now) =>
      var (value, sh') := Read(sh, k, false, now);
      (Present(value.Some?), sh')
    case InspectReq(k, now) =>
      (Inspected(match Visible(sh, k, now) case None => None case Some(e) => Some(SnapshotOf(k, e, now))),
       LazyExpire(sh, k, now))
    case DumpReq(now) => (Dumped(Dump(sh, now)), ExpireAll(sh, now))
    case SizeReq(_) => (Size(|sh.order|), sh)
    case DeleteReq(k, _) => (Existed(k in sh.entries), Delete(sh, k, c.mode))
    case ClearReq(_) => (Done, Clear(sh, c.mode))
    case ExpireReq(now) => (Done, ExpireAll(sh, now))
  }

  /** The shard after a sequence of requests. */
  function After(c: Setting, reqs: seq<Request>): (sh: Shard) {
    if reqs == [] then NewShard(c.capacity, c.kind)
    else Serve(c, After(c, reqs[..|reqs| - 1]), reqs[|reqs| - 1]).1
  }

  /** The clock never runs backwards. */
  ghost predicate Monotonic(reqs: seq<Request>) {
    forall i, j :: 0 <= i < j < |reqs| ==> reqs[i].now <= reqs[j].now
  }

  lemma {:induction false} ServeOk(c: Setting, sh: Shard, req: Request)
    requires ShardOk(sh)
    ensures ShardOk(Serve(c, sh, req).1) && Serve(c, sh, req).1.capacity == sh.capacity
  {
    match req
    case GetReq(k, now) => ReadOk(sh, k, true, now);
    case ContainsReq(k, now) => ReadOk(sh, k, false, now);
    case ClearReq(_) => ClearEmpties(sh, c.mode);
    case PutReq(_, _, _, _) =>
    case InspectReq(_, _) =>
    case DumpReq(_) =>
    case SizeReq(_) =>
    case DeleteReq(_, _) =>
    case ExpireReq(_) =>
  }

  /** After every request backend and policy agree and the shard is within capacity. */
  lemma {:induction false} AlwaysOk(c: Setting, reqs: seq<Request>)
    requires c.capacity >= 1
    ensures ShardOk(After(c, reqs)) && After(c, reqs).capacity == c.capacity
  {
    if reqs != [] {
      AlwaysOk(c, reqs[..|reqs| - 1]);
      ServeOk(c, After(c, reqs[..|reqs| - 1]), reqs[|reqs| - 1]);
    }
  }
}
