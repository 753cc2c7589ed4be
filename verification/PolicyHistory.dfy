/** The policies told apart by what happened to their keys, whatever structure they keep. */
module PolicyHistory {
  import opened Prelude
  import opened Policies

  /** The callbacks a policy receives. */
  datatype Event = Got(key: Key) | Stored(key: Key) | Gone(key: Key) | Wiped

  function Step(p: Policy, e: Event): Policy {
    match e
    case Got(k) => OnGet(p, k)
    case Stored(k) => OnPut(p, k)
    case Gone(k) => OnDelete(p, k)
    case Wiped => Fresh(KindOf(p))
  }

  /** The policy after a history of callbacks. */
  function Replay(kind: Kind, h: seq<Event>): (p: Policy)
    ensures Ok(p) && KindOf(p) == kind
  {
    if h == [] then Fresh(kind) else Step(Replay(kind, h[..|h| - 1]), h[|h| - 1])
  }

  predicate Touches(e: Event, k: Key) {
    e == Got(k) || e == Stored(k)
  }

  /** When `k` was last inserted, if it has not been removed since. */
  function InsertedAt(h: seq<Event>, k: Key): (r: Option<nat>)
    ensures r.Some? ==>
      && r.value < |h| && h[r.value] == Stored(k)
      && forall i :: r.value <= i < |h| ==> h[i] != Gone(k) && h[i] != Wiped
  {
    if h == [] then None
    else
      var before := InsertedAt(h[..|h| - 1], k);
      match h[|h| - 1]
      case Stored(j) => if j == k && before.None? then Some(|h| - 1) else before
      case Gone(j) => if j == k then None else before
      case Wiped => None
      case Got(_) => before
  }

  predicate Removes(e: Event, k: Key) {
    e == Gone(k) || e == Wiped
  }

  /** Every other insertion of `k` was undone: before the current one, or by now if there is none. */
  lemma {:induction false} InsertionIsCurrent(h: seq<Event>, k: Key, i: nat)
    requires i < |h| && h[i] == Stored(k)
    requires InsertedAt(h, k).Some? ==> i < InsertedAt(h, k).value
    ensures exists j :: i < j < (if InsertedAt(h, k).Some? then InsertedAt(h, k).value else |h|) && Removes(h[j], k)
  {
    var before := h[..|h| - 1];
    if i == |h| - 1 || Removes(h[|h| - 1], k) {
      assert InsertedAt(h, k).None? ==> Removes(h[|h| - 1], k);
    } else {
      InsertionIsCurrent(before, k, i);
      var end := if InsertedAt(before, k).Some? then InsertedAt(before, k).value else |before|;
      var j :| i < j < end && Removes(before[j], k);
      assert Removes(h[j], k);
    }
  }

  /** The last event that used `k`. */
  function LastTouch(h: seq<Event>, k: Key): (r: Option<nat>)
    ensures r.Some? ==> r.value < |h| && Touches(h[r.value], k) && forall i :: r.value < i < |h| ==> !Touches(h[i], k)
    ensures r.None? ==> forall i :: 0 <= i < |h| ==> !Touches(h[i], k)
  {
    if h == [] then None
    else if Touches(h[|h| - 1], k) then Some(|h| - 1)
    else LastTouch(h[..|h| - 1], k)
  }

  /** How many events from index `from` on used `k`. */
  function TouchCount(h: seq<Event>, k: Key, from: nat): nat {
    if |h| <= from then 0
    else TouchCount(h[..|h| - 1], k, from) + if Touches(h[|h| - 1], k) then 1 else 0
  }

  lemma InsertedIsTouched(h: seq<Event>, k: Key)
    requires InsertedAt(h, k).Some?
    ensures LastTouch(h, k).Some?
  {
  }

  /** `order` lists exactly the keys present, by rising rank. */
  ghost predicate SortedBy(order: seq<Key>, rank: Key -> Option<nat>) {
    forall i, j :: 0 <= i < j < |order| ==> Below(rank, order[i], order[j])
  }

  predicate Below(rank: Key -> Option<nat>, x: Key, y: Key) {
    rank(x).Some? && rank(y).Some? && rank(x).value < rank(y).value
  }

  lemma TailSorted(order: seq<Key>, rank: Key -> Option<nat>)
    requires order != [] && SortedBy(order, rank)
    ensures SortedBy(order[1..], rank)
  {
    var rest := order[1..];
    forall i, j | 0 <= i < j < |rest|
      ensures Below(rank, rest[i], rest[j])
    {
      assert rest[i] == order[i + 1] && rest[j] == order[j + 1];
    }
  }

  lemma SameRanks(order: seq<Key>, rank: Key -> Option<nat>, rank': Key -> Option<nat>)
    requires SortedBy(order, rank) && forall x :: x in order ==> rank'(x) == rank(x)
    ensures SortedBy(order, rank')
  {
  }

  lemma ConsSorted(k: Key, rest: seq<Key>, rank: Key -> Option<nat>)
    requires SortedBy(rest, rank)
    requires forall j :: 0 <= j < |rest| ==> Below(rank, k, rest[j])
    ensures SortedBy([k] + rest, rank)
  {
    var order := [k] + rest;
    forall i, j | 0 <= i < j < |order|
      ensures Below(rank, order[i], order[j])
    {
      assert order[0] == k && order[j] == rest[j - 1];
      if i > 0 { assert order[i] == rest[i - 1]; }
    }
  }

  lemma {:induction false} WithoutSorted(order: seq<Key>, k: Key, rank: Key -> Option<nat>, rank': Key -> Option<nat>)
    requires SortedBy(order, rank) && forall x :: x in order && x != k ==> rank'(x) == rank(x)
    ensures SortedBy(Without(order, k), rank')
  {
    if order != [] {
      TailSorted(order, rank);
      WithoutSorted(order[1..], k, rank, rank');
      if order[0] != k {
        var rest := Without(order[1..], k);
        forall j | 0 <= j < |rest| ensures Below(rank', order[0], rest[j]) {
          assert rest[j] in rest;
          var n :| 0 <= n < |order[1..]| && order[1..][n] == rest[j];
          assert order[n + 1] == rest[j];
          assert rest[j] in order && rank'(rest[j]) == rank(rest[j]);
        }
        ConsSorted(order[0], rest, rank');
      }
    }
  }

  lemma SnocSorted(order: seq<Key>, k: Key, rank: Key -> Option<nat>)
    requires SortedBy(order, rank) && rank(k).Some?
    requires forall x :: x in order ==> Below(rank, x, k)
    ensures SortedBy(order + [k], rank)
  {
  }

  function Used(h: seq<Event>): Key -> Option<nat> {
    k => LastTouch(h, k)
  }

  function Inserted(h: seq<Event>): Key -> Option<nat> {
    k => InsertedAt(h, k)
  }

  // ---------------------------------------------------------------- what is tracked, and in which order

  /** A policy tracks exactly the keys inserted and not removed since. */
  lemma {:induction false} TracksInserted(kind: Kind, h: seq<Event>)
    ensures forall k :: k in Replay(kind, h).order <==> InsertedAt(h, k).Some?
  {
    if h != [] { TracksInserted(kind, h[..|h| - 1]); }
  }

  lemma UsedRanks(kind: Kind, h: seq<Event>)
    ensures forall k :: k in Replay(kind, h).order ==> LastTouch(h, k).Some? && LastTouch(h, k).value < |h|
  {
    TracksInserted(kind, h);
    forall k | k in Replay(kind, h).order ensures LastTouch(h, k).Some? { InsertedIsTouched(h, k); }
  }

  /** LRU and LFU list their keys by last use. */
  lemma {:induction false} OrderedByUse(kind: Kind, h: seq<Event>)
    requires kind != FIFO
    ensures SortedBy(Replay(kind, h).order, Used(h))
  {
    if h != [] {
      var before := h[..|h| - 1];
      var p := Replay(kind, before);
      OrderedByUse(kind, before);
      UsedRanks(kind, before);
      match h[|h| - 1]
      case Got(k) =>
        WithoutSorted(p.order, k, Used(before), Used(h));
        if k in p.order { SnocSorted(Without(p.order, k), k, Used(h)); }
        else { assert Without(p.order, k) == p.order; }
      case Stored(k) =>
        WithoutSorted(p.order, k, Used(before), Used(h));
        SnocSorted(Without(p.order, k), k, Used(h));
      case Gone(k) =>
        WithoutSorted(p.order, k, Used(before), Used(h));
      case Wiped =>
    }
  }

  /** FIFO lists its keys by insertion. */
  lemma {:induction false} OrderedByInsertion(h: seq<Event>)
    ensures SortedBy(Replay(FIFO, h).order, Inserted(h))
  {
    if h != [] {
      var before := h[..|h| - 1];
      var order := Replay(FIFO, before).order;
      OrderedByInsertion(before);
      TracksInserted(FIFO, before);
      match h[|h| - 1]
      case Got(k) =>
        SameRanks(order, Inserted(before), Inserted(h));
      case Stored(k) =>
        SameRanks(order, Inserted(before), Inserted(h));
        if k !in order { SnocSorted(order, k, Inserted(h)); }
      case Gone(k) =>
        WithoutSorted(order, k, Inserted(before), Inserted(h));
      case Wiped =>
    }
  }

  /** The frequency LFU keeps is the number of uses since insertion. */
  lemma {:induction false} FrequencyIsTouchCount(h: seq<Event>, k: Key)
    requires k in Replay(LFU, h).order
    ensures InsertedAt(h, k).Some?
    ensures Freq(Replay(LFU, h).freq, k) == TouchCount(h, k, InsertedAt(h, k).value)
  {
    TracksInserted(LFU, h);
    if h != [] {
      var before := h[..|h| - 1];
      TracksInserted(LFU, before);
      if k in Replay(LFU, before).order { FrequencyIsTouchCount(before, k); }
    }
  }

  // ---------------------------------------------------------------- who is evicted

  /** FIFO evicts the key inserted first. */
  lemma FifoCandidate(h: seq<Event>, c: Key, k: Key)
    requires Candidate(Replay(FIFO, h)) == Some(c) && InsertedAt(h, k).Some? && k != c
    ensures InsertedAt(h, c).Some? && InsertedAt(h, c).value < InsertedAt(h, k).value
  {
    TracksInserted(FIFO, h);
    OrderedByInsertion(h);
    var order := Replay(FIFO, h).order;
    var i :| 0 <= i < |order| && order[i] == k;
    assert Below(Inserted(h), order[0], order[i]);
  }

  /** LRU evicts the key whose last use is oldest. */
  lemma LruCandidate(h: seq<Event>, c: Key, k: Key)
    requires Candidate(Replay(LRU, h)) == Some(c) && InsertedAt(h, k).Some? && k != c
    ensures InsertedAt(h, c).Some? && LastTouch(h, c).Some? && LastTouch(h, k).Some?
    ensures LastTouch(h, c).value < LastTouch(h, k).value
  {
    TracksInserted(LRU, h);
    OrderedByUse(LRU, h);
    var order := Replay(LRU, h).order;
    var i :| 0 <= i < |order| && order[i] == k;
    assert Below(Used(h), order[0], order[i]);
  }

  /** LFU evicts the key with the fewest uses since insertion, and among those the one used longest ago. */
  lemma LfuCandidate(h: seq<Event>, c: Key, k: Key)
    requires Candidate(Replay(LFU, h)) == Some(c) && InsertedAt(h, k).Some? && k != c
    ensures InsertedAt(h, c).Some? && LastTouch(h, c).Some? && LastTouch(h, k).Some?
    ensures var uses := TouchCount(h, c, InsertedAt(h, c).value);
            var others := TouchCount(h, k, InsertedAt(h, k).value);
            uses < others || (uses == others && LastTouch(h, c).value < LastTouch(h, k).value)
  {
    TracksInserted(LFU, h);
    UsedRanks(LFU, h);
    var p := Replay(LFU, h);
    FrequencyIsTouchCount(h, c);
    FrequencyIsTouchCount(h, k);
    OrderedByUse(LFU, h);
    var i :| FirstLeast(p.order, p.freq, i) && p.order[i] == c;
    var j :| 0 <= j < |p.order| && p.order[j] == k;
    if i < j { assert Below(Used(h), p.order[i], p.order[j]); }
  }
}
