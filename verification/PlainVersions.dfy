/**
  Versions and metadata of a cache that does not write back: no tombstone, no pending flush,
  no dirty entry, marks for the held keys only, and versions that count the puts of an entry.
 */
module PlainVersions {
  import opened Prelude
  import opened Shards
  import opened ShardRuns
  import opened Cells

  /** A held key has a clean entry at its mark; of any other key nothing is known. */
  predicate PlainCell(c: Cell) {
    && c.tomb.None? && c.pending == 0
    && c.mark == (match c.live case None => None case Some(l) => Some(l.version))
    && (c.live.Some? ==> !c.live.value.dirty)
  }

  ghost predicate PlainShard(sh: Shard) {
    forall k :: PlainCell(CellOf(sh, k))
  }

  const NOTHING := Cell(None, None, None, 0)

  lemma DroppedPlain(c: Cell)
    requires PlainCell(c)
    ensures Dropped(c) == NOTHING && PlainCell(NOTHING)
  {
  }

  /** Only removals: a cell stays as it is or becomes empty. */
  ghost predicate Thinned(sh: Shard, sh': Shard) {
    forall k :: Weathered(CellOf(sh, k), CellOf(sh', k))
  }

  lemma ThinnedPlain(sh: Shard, sh': Shard)
    requires PlainShard(sh) && Thinned(sh, sh')
    ensures PlainShard(sh')
    ensures forall k :: k in sh'.entries ==> k in sh.entries && sh'.entries[k].version == sh.entries[k].version
  {
    forall k ensures PlainCell(CellOf(sh', k)) && (CellOf(sh', k) == CellOf(sh, k) || CellOf(sh', k) == NOTHING) {
      assert Weathered(CellOf(sh, k), CellOf(sh', k));
      DroppedPlain(CellOf(sh, k));
    }
    forall k | k in sh'.entries ensures k in sh.entries && sh'.entries[k].version == sh.entries[k].version {
      assert CellOf(sh', k) == CellOf(sh, k) || CellOf(sh', k) == NOTHING;
    }
  }

  lemma DeleteThins(sh: Shard, k: Key, mode: Mode)
    requires !mode.WriteBack?
    ensures CellOf(Delete(sh, k, mode), k) == Dropped(CellOf(sh, k))
    ensures forall j :: j != k ==> CellOf(Delete(sh, k, mode), j) == CellOf(sh, j)
  {
    RemoveCells(sh, k, Drop);
    SameCells(Remove(sh, k, Drop), Delete(sh, k, mode));
  }

  lemma {:induction false} DeleteAllThins(sh: Shard, ks: seq<Key>, mode: Mode)
    requires !mode.WriteBack?
    ensures Thinned(sh, DeleteAll(sh, ks, mode))
    decreases |ks|
  {
    if ks != [] {
      DeleteThins(sh, ks[0], mode);
      DeleteAllThins(Delete(sh, ks[0], mode), ks[1..], mode);
    }
  }

  lemma ClearThins(sh: Shard, mode: Mode)
    requires !mode.WriteBack?
    ensures Thinned(sh, Clear(sh, mode))
  {
    DeleteAllThins(sh, sh.order, mode);
    SameCells(DeleteAll(sh, sh.order, mode), Clear(sh, mode));
  }

  lemma LazyThins(sh: Shard, k: Key, now: real)
    ensures Thinned(sh, LazyExpire(sh, k, now))
  {
    LazyExpireCells(sh, k, now);
  }

  lemma OtherThins(c: Setting, sh: Shard, req: Request)
    requires !c.mode.WriteBack? && !(req.PutReq? && ValidTtl(req.ttl))
    ensures Thinned(sh, Serve(c, sh, req).1)
  {
    match req
    case PutReq(_, _, _, _) =>
    case SizeReq(_) =>
    case GetReq(k, now) => ReadCells(sh, k, true, now);
    case ContainsReq(k, now) => ReadCells(sh, k, false, now);
    case InspectReq(k, now) => LazyThins(sh, k, now);
    case DumpReq(now) => RemoveAllCells(sh, ExpiredKeys(sh, now), Expire);
    case ExpireReq(now) => RemoveAllCells(sh, ExpiredKeys(sh, now), Expire);
    case DeleteReq(k, _) => DeleteThins(sh, k, c.mode);
    case ClearReq(_) => ClearThins(sh, c.mode);
  }

  lemma PlainStore(sh: Shard, k: Key, v: Value, ttl: TtlArg, now: real, mode: Mode, defaultTtl: Option<real>, r: Shard)
    requires !mode.WriteBack? && r == Store(sh, k, v, ttl, now, mode, defaultTtl)
    ensures var c := CellOf(sh, k);
            CellOf(r, k) == Cell(Some(Live(v, Next(c), false)), Some(Next(c)), None, c.pending)
    ensures forall j :: j != k ==> CellOf(r, j) == CellOf(sh, j)
  {
  }

  lemma StorePlain(sh: Shard, k: Key, v: Value, ttl: TtlArg, now: real, mode: Mode, defaultTtl: Option<real>, r: Shard)
    requires PlainShard(sh) && !mode.WriteBack? && r == Store(sh, k, v, ttl, now, mode, defaultTtl)
    ensures PlainShard(r)
    ensures k in r.entries && r.entries[k].version == if k in sh.entries then sh.entries[k].version + 1 else 1
    ensures forall j :: j in r.entries && j != k ==> j in sh.entries && r.entries[j].version == sh.entries[j].version
  {
    PlainStore(sh, k, v, ttl, now, mode, defaultTtl, r);
    assert PlainCell(CellOf(sh, k));
    forall j ensures PlainCell(CellOf(r, j)) {
      assert PlainCell(CellOf(sh, j));
    }
    assert CellOf(r, k).live.Some?;
  }

  /** A put of a visible key raises its version by one; any other insertion starts at one. */
  lemma PutPlain(c: Setting, sh: Shard, req: Request, sh': Shard)
    requires PlainShard(sh) && !c.mode.WriteBack? && req.PutReq?
    requires sh' == Put(sh, req.key, req.value, req.ttl, req.now, c.mode, c.defaultTtl)
    ensures PlainShard(sh')
    ensures req.key in sh'.entries ==>
              sh'.entries[req.key].version ==
                match Visible(sh, req.key, req.now) case Some(e) => e.version + 1 case None => 1
    ensures forall j :: j in sh'.entries && j != req.key ==>
              j in sh.entries && sh'.entries[j].version == sh.entries[j].version
  {
    var expired := LazyExpire(sh, req.key, req.now);
    LazyThins(sh, req.key, req.now);
    ThinnedPlain(sh, expired);
    var stored := Store(expired, req.key, req.value, req.ttl, req.now, c.mode, c.defaultTtl);
    StorePlain(expired, req.key, req.value, req.ttl, req.now, c.mode, c.defaultTtl, stored);
    EnforceCells(stored);
    assert sh' == Enforce(stored);
    ThinnedPlain(stored, sh');
  }

  lemma ServePlain(c: Setting, sh: Shard, req: Request)
    requires PlainShard(sh) && !c.mode.WriteBack?
    ensures PlainShard(Serve(c, sh, req).1)
  {
    var sh' := Serve(c, sh, req).1;
    if req.PutReq? && ValidTtl(req.ttl) {
      PutPlain(c, sh, req, sh');
    } else {
      OtherThins(c, sh, req);
      ThinnedPlain(sh, sh');
    }
  }

  /** Without write-back no run leaves a tombstone, a pending flush, a dirty entry or a mark without its entry. */
  lemma {:induction false} AlwaysPlain(c: Setting, reqs: seq<Request>)
    requires !c.mode.WriteBack?
    ensures PlainShard(After(c, reqs))
  {
    if reqs != [] {
      AlwaysPlain(c, reqs[..|reqs| - 1]);
      ServePlain(c, After(c, reqs[..|reqs| - 1]), reqs[|reqs| - 1]);
    }
  }
}
