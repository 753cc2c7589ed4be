/**
  What the write-back protocol can see of one key in a shard, and how each locked region
  changes it.  Every region changes the cell of its own key as described here and otherwise
  either leaves a cell alone or drops its entry.
 */
module Cells {
  import opened Prelude
  import opened Policies
  import opened Shards

  datatype Live = Live(value: Value, version: nat, dirty: bool)

  datatype Cell = Cell(live: Option<Live>, mark: Option<nat>, tomb: Option<nat>, pending: nat)

  function CellOf(sh: Shard, k: Key): Cell {
    Cell(
      if k in sh.entries then Some(Live(sh.entries[k].value, sh.entries[k].version, sh.entries[k].dirty)) else None,
      if k in sh.marks then Some(sh.marks[k]) else None,
      if k in sh.tombs then Some(sh.tombs[k]) else None,
      Get(sh.pending, k))
  }

  function Pruned(c: Cell): Cell {
    if c.pending > 0 || c.live.Some? then c else c.(mark := None, tomb := None)
  }

  /** Eviction or expiry of the key. */
  function Dropped(c: Cell): Cell {
    Pruned(c.(live := None))
  }

  function Next(c: Cell): nat {
    if c.mark.Some? then c.mark.value + 1 else 1
  }

  /** A write-back put that is not evicted by its own capacity check. */
  function Written(c: Cell, v: Value): Cell {
    Cell(Some(Live(v, Next(c), true)), Some(Next(c)), None, c.pending + 1)
  }

  /** A write-back put whose own key was the victim: its mark is pruned unless a flush is pending. */
  function WrittenAndEvicted(c: Cell): Cell {
    Cell(None, if c.pending > 0 then Some(Next(c)) else None, None, c.pending + 1)
  }

  function Deleted(c: Cell): Cell {
    Cell(None, Some(Next(c)), Some(Next(c)), c.pending + 1)
  }

  function Resolved(c: Cell): Cell {
    Pruned(c.(pending := if c.pending > 1 then c.pending - 1 else 0))
  }

  function Cleaned(c: Cell, version: nat): Cell {
    if c.live.Some? && c.live.value.version == version
    then c.(live := Some(c.live.value.(dirty := false)))
    else c
  }

  /** The cell is untouched or its entry was evicted or expired. */
  predicate Weathered(c: Cell, c': Cell) {
    c' == c || c' == Dropped(c)
  }

  lemma RemoveCells(sh: Shard, k: Key, reason: Reason)
    ensures CellOf(Remove(sh, k, reason), k) == Dropped(CellOf(sh, k))
    ensures forall j :: j != k ==> CellOf(Remove(sh, k, reason), j) == CellOf(sh, j)
  {
  }

  lemma {:induction false} RemoveAllCells(sh: Shard, ks: seq<Key>, reason: Reason)
    ensures forall j :: Weathered(CellOf(sh, j), CellOf(RemoveAll(sh, ks, reason), j))
    decreases |ks|
  {
    if ks != [] {
      RemoveCells(sh, ks[0], reason);
      RemoveAllCells(Remove(sh, ks[0], reason), ks[1..], reason);
    }
  }

  lemma ExpireWeathers(sh: Shard, now: real, sh': Shard, k: Key)
    requires sh' == ExpireAll(sh, now)
    ensures Weathered(CellOf(sh, k), CellOf(sh', k))
  {
    RemoveAllCells(sh, ExpiredKeys(sh, now), Expire);
  }

  lemma {:induction false} EnforceCells(sh: Shard)
    ensures forall j :: Weathered(CellOf(sh, j), CellOf(Enforce(sh), j))
    decreases |sh.policy.order|
  {
    if |sh.order| > sh.capacity && Candidate(sh.policy).Some? {
      var victim := Candidate(sh.policy).value;
      RemoveCells(sh, victim, Evict);
      EnforceCells(Remove(sh, victim, Evict));
    }
  }

  lemma LazyExpireCells(sh: Shard, k: Key, now: real)
    ensures Weathered(CellOf(sh, k), CellOf(LazyExpire(sh, k, now), k))
    ensures forall j :: j != k ==> CellOf(LazyExpire(sh, k, now), j) == CellOf(sh, j)
  {
    RemoveCells(sh, k, Expire);
  }

  /** A put did not evict its own key, or an older flush of that key is still pending. */
  predicate Benign(before: Shard, k: Key, after: Shard) {
    k in after.entries || Get(before.pending, k) > 0
  }

  lemma RegisterCells(sh: Shard, k: Key)
    ensures CellOf(Register(sh, k), k) == CellOf(sh, k).(pending := CellOf(sh, k).pending + 1)
    ensures forall j :: j != k ==> CellOf(Register(sh, k), j) == CellOf(sh, j)
  {
  }

  lemma StoreCells(sh: Shard, k: Key, v: Value, ttl: TtlArg, now: real, defaultTtl: Option<real>)
    ensures var c := CellOf(sh, k);
            CellOf(Store(sh, k, v, ttl, now, WriteBack, defaultTtl), k)
            == Cell(Some(Live(v, Next(c), true)), Some(Next(c)), None, c.pending)
    ensures forall j :: j != k ==> CellOf(Store(sh, k, v, ttl, now, WriteBack, defaultTtl), j) == CellOf(sh, j)
  {
  }

  lemma PutCells(sh: Shard, k: Key, v: Value, ttl: TtlArg, now: real, defaultTtl: Option<real>)
    ensures var c := CellOf(LazyExpire(sh, k, now), k);
            var sh' := Put(sh, k, v, ttl, now, WriteBack, defaultTtl);
            && Weathered(CellOf(sh, k), c)
            && PutVersion(sh, k, now) == Next(c)
            && CellOf(sh', k) == if k in sh'.entries then Written(c, v) else WrittenAndEvicted(c)
    ensures forall j :: j != k ==>
              Weathered(CellOf(sh, j), CellOf(Put(sh, k, v, ttl, now, WriteBack, defaultTtl), j))
  {
    var expired := LazyExpire(sh, k, now);
    LazyExpireCells(sh, k, now);
    var stored := Store(expired, k, v, ttl, now, WriteBack, defaultTtl);
    StoreCells(expired, k, v, ttl, now, defaultTtl);
    var kept := Enforce(stored);
    EnforceCells(stored);
    RegisterCells(kept, k);
    assert Weathered(CellOf(stored, k), CellOf(kept, k));
    assert Put(sh, k, v, ttl, now, WriteBack, defaultTtl) == Register(kept, k);
  }

  /** A cell does not depend on recency, hit counts, the policy or the statistics. */
  lemma SameCells(sh: Shard, sh': Shard)
    requires sh'.marks == sh.marks && sh'.tombs == sh.tombs && sh'.pending == sh.pending
    requires sh'.entries.Keys == sh.entries.Keys
    requires forall j :: j in sh.entries ==>
               && sh'.entries[j].value == sh.entries[j].value
               && sh'.entries[j].version == sh.entries[j].version
               && sh'.entries[j].dirty == sh.entries[j].dirty
    ensures forall j :: CellOf(sh', j) == CellOf(sh, j)
  {
  }

  lemma NoteCells(sh: Shard, k: Key)
    ensures var c := CellOf(sh, k);
            CellOf(Note(sh, k), k) == c.(mark := Some(Next(c)), tomb := Some(Next(c)), pending := c.pending + 1)
    ensures forall j :: j != k ==> CellOf(Note(sh, k), j) == CellOf(sh, j)
  {
  }

  lemma DeleteCells(sh: Shard, k: Key)
    ensures CellOf(Delete(sh, k, WriteBack), k) == Deleted(CellOf(sh, k))
    ensures forall j :: j != k ==> CellOf(Delete(sh, k, WriteBack), j) == CellOf(sh, j)
  {
    NoteCells(sh, k);
    RemoveCells(Note(sh, k), k, Drop);
    SameCells(Remove(Note(sh, k), k, Drop), Delete(sh, k, WriteBack));
  }

  lemma ReadCells(sh: Shard, k: Key, touch: bool, now: real)
    ensures forall j :: Weathered(CellOf(sh, j), CellOf(Read(sh, k, touch, now).1, j))
  {
    if k in sh.entries && Expired(sh.entries[k], now) {
      RemoveCells(sh, k, Expire);
      SameCells(Remove(sh, k, Expire), Read(sh, k, touch, now).1);
    } else {
      SameCells(sh, Read(sh, k, touch, now).1);
    }
  }

  lemma ResolveCells(sh: Shard, k: Key)
    ensures CellOf(Resolve(sh, k), k) == Resolved(CellOf(sh, k))
    ensures forall j :: j != k ==> CellOf(Resolve(sh, k), j) == CellOf(sh, j)
  {
  }

  lemma MarkCleanCells(sh: Shard, k: Key, version: nat)
    ensures CellOf(MarkClean(sh, k, version), k) == Cleaned(CellOf(sh, k), version)
    ensures forall j :: j != k ==> CellOf(MarkClean(sh, k, version), j) == CellOf(sh, j)
  {
  }
}
