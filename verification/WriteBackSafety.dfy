/** Every step of clients, queue and workers keeps the invariant. */
module WriteBackSafety {
  import opened Prelude
  import opened Policies
  import opened Shards
  import opened Cells
  import opened WriteBack
  import opened WriteBackInvariant

  lemma InitInv(c: Config, source: map<Key, Value>)
    requires ValidConfig(c)
    ensures Inv(c, Init(c, source))
  {
    var s := Init(c, source);
    forall k ensures KeyInv(CellAt(c, s, k), k, s) {
      assert Out(s.jobs, k) == {};
    }
  }

  // ---------------------------------------------------------------- client steps

  lemma PutInv(c: Config, s: State, k: Key, v: Value, ttl: TtlArg, now: real)
    requires Inv(c, s) && Gentle(c, s, PutStep(k, v, ttl, now))
    ensures Inv(c, PutTo(c, s, k, v, ttl, now))
  {
    var sh := ShardAt(c, s, k);
    var sh' := Put(sh, k, v, ttl, now, Mode.WriteBack, c.defaultTtl);
    PutCells(sh, k, v, ttl, now, c.defaultTtl);
    assert Kept(c, k, sh, sh');
    WriteStep(c, s, k, PutOp(v), PutVersion(sh, k, now), sh', CellOf(LazyExpire(sh, k, now), k));
  }

  lemma DeleteInv(c: Config, s: State, k: Key)
    requires Inv(c, s)
    ensures Inv(c, DeleteFrom(c, s, k))
  {
    var sh := ShardAt(c, s, k);
    var sh' := Delete(sh, k, Mode.WriteBack);
    DeleteCells(sh, k);
    assert Kept(c, k, sh, sh');
    WriteStep(c, s, k, DeleteOp, Get(sh.marks, k) + 1, sh', CellOf(sh, k));
  }

  lemma {:induction false} DeleteKeysInv(c: Config, s: State, ks: seq<Key>, i: nat)
    requires Inv(c, s) && i < c.shardCount && forall k :: k in ks ==> c.route(k) == i
    ensures Inv(c, DeleteKeys(c, s, ks))
    ensures DeleteKeys(c, s, ks).shards[i] == DeleteAll(s.shards[i], ks, Mode.WriteBack)
    decreases |ks|
  {
    if ks != [] {
      DeleteInv(c, s, ks[0]);
      DeleteKeysInv(c, DeleteFrom(c, s, ks[0]), ks[1..], i);
    }
  }

  /** A shard without entries may forget its policy. */
  lemma ResetPolicy(c: Config, s: State, i: nat, sh': Shard)
    requires Inv(c, s) && i < c.shardCount
    requires sh' == s.shards[i].(policy := Fresh(c.kind)) && ShardOk(sh') && sh'.entries == map[]
    ensures Inv(c, s.(shards := s.shards[i := sh']))
  {
    var s' := s.(shards := s.shards[i := sh']);
    SameCells(s.shards[i], sh');
    forall k ensures CellAt(c, s', k) == CellAt(c, s, k) {
      assert CellOf(sh', k) == CellOf(s.shards[i], k);
    }
    QuietStep(c, s, s');
  }

  /** Clearing a shard is `Clear` on that shard, and keeps the invariant. */
  lemma ClearInv(c: Config, s: State, i: nat)
    requires Inv(c, s) && i < c.shardCount
    ensures Inv(c, ClearShard(c, s, i))
    ensures ClearShard(c, s, i).shards[i] == Clear(s.shards[i], Mode.WriteBack)
  {
    DeleteKeysInv(c, s, s.shards[i].order, i);
    ClearEmpties(s.shards[i], Mode.WriteBack);
    ResetPolicy(c, DeleteKeys(c, s, s.shards[i].order), i, Clear(s.shards[i], Mode.WriteBack));
  }

  lemma ReadInv(c: Config, s: State, k: Key, touch: bool, now: real)
    requires Inv(c, s)
    ensures Inv(c, SetShard(c, s, k, Read(ShardAt(c, s, k), k, touch, now).1))
  {
    var sh := ShardAt(c, s, k);
    ReadOk(sh, k, touch, now);
    ReadCells(sh, k, touch, now);
    var s' := SetShard(c, s, k, Read(sh, k, touch, now).1);
    SetShardInv(c, s, k, Read(sh, k, touch, now).1, s');
    QuietStep(c, s, s');
  }

  lemma InspectInv(c: Config, s: State, k: Key, now: real)
    requires Inv(c, s)
    ensures Inv(c, SetShard(c, s, k, LazyExpire(ShardAt(c, s, k), k, now)))
  {
    var sh := ShardAt(c, s, k);
    LazyExpireCells(sh, k, now);
    var s' := SetShard(c, s, k, LazyExpire(sh, k, now));
    SetShardInv(c, s, k, LazyExpire(sh, k, now), s');
    QuietStep(c, s, s');
  }

  lemma ExpireInv(c: Config, s: State, i: nat, now: real)
    requires Inv(c, s) && i < c.shardCount
    ensures Inv(c, s.(shards := s.shards[i := ExpireAll(s.shards[i], now)]))
  {
    RemoveAllCells(s.shards[i], ExpiredKeys(s.shards[i], now), Expire);
    var s' := s.(shards := s.shards[i := ExpireAll(s.shards[i], now)]);
    forall k ensures Weathered(CellAt(c, s, k), CellAt(c, s', k)) {
      assert Weathered(CellOf(s.shards[i], k), CellOf(ExpireAll(s.shards[i], now), k));
    }
    QuietStep(c, s, s');
  }

  // ---------------------------------------------------------------- job steps

  lemma EnqueueInv(c: Config, s: State, id: nat, job: Job)
    requires Inv(c, s) && id in s.jobs && s.jobs[id].place != Queued
    requires job.place == Queued && Moved(s.jobs[id], job)
    ensures Inv(c, s.(jobs := s.jobs[id := job], queue := s.queue + [id]))
  {
    NoDupSnoc(s.queue, id);
    MoveOne(c, s, s.(jobs := s.jobs[id := job], queue := s.queue + [id]), id, job);
  }

  lemma TakeInv(c: Config, s: State, w: nat)
    requires Inv(c, s) && Enabled(c, s, TakeStep(w))
    ensures Inv(c, Do(c, s, TakeStep(w)))
  {
    var id := s.queue[0];
    assert s.queue == [id] + s.queue[1..];
    MoveOne(c, s, Do(c, s, TakeStep(w)), id, s.jobs[id].(place := Taken(w)));
  }

  lemma PassInv(c: Config, s: State, id: nat)
    requires Inv(c, s) && Enabled(c, s, PassStep(id))
    ensures Inv(c, Do(c, s, PassStep(id)))
  {
    MoveOne(c, s, Do(c, s, PassStep(id)), id, s.jobs[id].(place := Passed(s.jobs[id].place.worker)));
  }

  lemma ApplyInv(c: Config, s: State, id: nat)
    requires Inv(c, s) && Enabled(c, s, ApplyStep(id))
    ensures Inv(c, Do(c, s, ApplyStep(id)))
  {
    MoveOne(c, s, Do(c, s, ApplyStep(id)), id, s.jobs[id].(place := Applied(s.jobs[id].place.worker)));
  }

  /** In a reachable state the stale check says exactly whether a later write exists. */
  lemma StaleIffLater(c: Config, s: State, id: nat)
    requires Inv(c, s) && id in s.jobs
    ensures Stale(c, s, s.jobs[id]) <==> Last(s.log, s.jobs[id].key) != Some(id)
  {
    var k := s.jobs[id].key;
    assert id in Out(s.jobs, k);
    StaleIffSuperseded(CellAt(c, s, k), ShardAt(c, s, k), k, s, id);
  }

  lemma SkipInv(c: Config, s: State, id: nat)
    requires Inv(c, s) && Enabled(c, s, SkipStep(id))
    ensures Inv(c, Do(c, s, SkipStep(id)))
  {
    var k := s.jobs[id].key;
    StaleIffLater(c, s, id);
    ResolveCells(ShardAt(c, s, k), k);
    SettleStep(c, s, Do(c, s, SkipStep(id)), id, Resolve(ShardAt(c, s, k), k));
  }

  lemma LoseInv(c: Config, s: State, id: nat, counts: Counts)
    requires Inv(c, s) && id in s.jobs && s.jobs[id].place != Queued
    ensures Inv(c, Lose(c, s, id).(counts := counts))
  {
    var k := s.jobs[id].key;
    ResolveCells(ShardAt(c, s, k), k);
    SettleStep(c, s, Lose(c, s, id).(counts := counts), id, Resolve(ShardAt(c, s, k), k));
  }

  lemma ResolveKept(c: Config, sh: Shard, k: Key)
    requires ShardOk(sh)
    ensures Kept(c, k, sh, Resolve(sh, k))
  {
  }

  lemma FinishShard(c: Config, sh: Shard, job: Job)
    requires ShardOk(sh)
    ensures var done := Resolve(CleanedBy(sh, job), job.key);
            && Kept(c, job.key, sh, done)
            && CellOf(done, job.key) == Resolved(if job.op.PutOp? then Cleaned(CellOf(sh, job.key), job.version)
                                                 else CellOf(sh, job.key))
            && forall j :: j != job.key ==> CellOf(done, j) == CellOf(sh, j)
  {
    var cleaned := CleanedBy(sh, job);
    MarkCleanCells(sh, job.key, job.version);
    ResolveCells(cleaned, job.key);
    ResolveKept(c, cleaned, job.key);
  }

  lemma FinishInv(c: Config, s: State, id: nat)
    requires Inv(c, s) && Enabled(c, s, FinishStep(id))
    ensures Inv(c, Do(c, s, FinishStep(id)))
  {
    var sh := ShardAt(c, s, s.jobs[id].key);
    FinishShard(c, sh, s.jobs[id]);
    SettleStep(c, s, Do(c, s, FinishStep(id)), id, Resolve(CleanedBy(sh, s.jobs[id]), s.jobs[id].key));
  }

  lemma ClientInv(c: Config, s: State, step: Step)
    requires Inv(c, s) && Enabled(c, s, step) && Gentle(c, s, step) && !Internal(step)
    ensures Inv(c, Do(c, s, step))
  {
    match step
    case PutStep(k, v, ttl, now) => PutInv(c, s, k, v, ttl, now);
    case DeleteStep(k) => DeleteInv(c, s, k);
    case ClearStep(i) => ClearInv(c, s, i);
    case ReadStep(k, touch, now) => ReadInv(c, s, k, touch, now);
    case InspectStep(k, now) => InspectInv(c, s, k, now);
    case ExpireStep(i, now) => ExpireInv(c, s, i, now);
  }

  lemma JobInv(c: Config, s: State, step: Step)
    requires Inv(c, s) && Enabled(c, s, step) && Internal(step)
    ensures Inv(c, Do(c, s, step))
  {
    match step
    case EnqueueStep(id) => EnqueueInv(c, s, id, Do(c, s, step).jobs[id]);
    case RejectStep(id) => LoseInv(c, s, id, Do(c, s, step).counts);
    case TakeStep(w) => TakeInv(c, s, w);
    case SkipStep(id) => SkipInv(c, s, id);
    case PassStep(id) => PassInv(c, s, id);
    case ApplyStep(id) => ApplyInv(c, s, id);
    case RetryStep(id) => EnqueueInv(c, s, id, Do(c, s, step).jobs[id]);
    case RetryDroppedStep(id) => LoseInv(c, s, id, Do(c, s, step).counts);
    case GiveUpStep(id) => LoseInv(c, s, id, Do(c, s, step).counts);
    case FinishStep(id) => FinishInv(c, s, id);
  }

  lemma StepInv(c: Config, s: State, step: Step)
    requires Inv(c, s) && Enabled(c, s, step) && Gentle(c, s, step)
    ensures Inv(c, Do(c, s, step))
  {
    if Internal(step) {
      JobInv(c, s, step);
    } else {
      ClientInv(c, s, step);
    }
  }
}
