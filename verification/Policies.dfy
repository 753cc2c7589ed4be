/**
  The three eviction policies as values.  `order` lists the tracked keys: by insertion for
  FIFO, by last use for LRU and by last touch for LFU, oldest first.  The classes
  `LruPolicy`, `FifoPolicy` and `LfuPolicy` are proved against these functions.
 */
module Policies {
  import opened Prelude

  datatype Policy =
    | Fifo(order: seq<Key>)
    | Lru(order: seq<Key>)
    | Lfu(order: seq<Key>, freq: map<Key, nat>)

  datatype Kind = FIFO | LRU | LFU

  function Fresh(kind: Kind): (p: Policy)
    ensures Ok(p) && p.order == [] && KindOf(p) == kind
  {
    match kind
    case FIFO => Fifo([])
    case LRU => Lru([])
    case LFU => Lfu([], map[])
  }

  function KindOf(p: Policy): Kind {
    match p
    case Fifo(_) => FIFO
    case Lru(_) => LRU
    case Lfu(_, _) => LFU
  }

  ghost predicate Ok(p: Policy) {
    && NoDup(p.order)
    && (p.Lfu? ==> (forall k :: k in p.freq <==> k in p.order) && (forall k :: k in p.freq ==> p.freq[k] >= 1))
  }

  function Freq(freq: map<Key, nat>, k: Key): nat {
    if k in freq then freq[k] else 0
  }

  function OnGet(p: Policy, k: Key): (r: Policy)
    ensures KindOf(r) == KindOf(p)
    ensures Ok(p) ==> Ok(r)
    ensures forall x :: x in r.order <==> x in p.order
  {
    if k !in p.order then p
    else
      match p
      case Fifo(_) => p
      case Lru(order) => Lru(MoveToEnd(order, k))
      case Lfu(order, freq) => Lfu(MoveToEnd(order, k), freq[k := Freq(freq, k) + 1])
  }

  function OnPut(p: Policy, k: Key): (r: Policy)
    ensures KindOf(r) == KindOf(p)
    ensures Ok(p) ==> Ok(r)
    ensures forall x :: x in r.order <==> x in p.order || x == k
  {
    NoDupSnoc(p.order, k);
    match p
    case Fifo(order) => if k in order then p else Fifo(order + [k])
    case Lru(order) => Lru(MoveToEnd(order, k))
    case Lfu(order, freq) =>
      if k in order then OnGet(p, k) else Lfu(order + [k], freq[k := 1])
  }

  function OnDelete(p: Policy, k: Key): (r: Policy)
    ensures KindOf(r) == KindOf(p)
    ensures Ok(p) ==> Ok(r)
    ensures forall x :: x in r.order <==> x in p.order && x != k
    ensures k in p.order ==> |r.order| < |p.order|
  {
    WithoutNoDup(p.order, k);
    match p
    case Fifo(order) => Fifo(Without(order, k))
    case Lru(order) => Lru(Without(order, k))
    case Lfu(order, freq) => Lfu(Without(order, k), freq - {k})
  }

  /** `order[i]` has the least frequency, and no key before it has the same. */
  ghost predicate FirstLeast(order: seq<Key>, freq: map<Key, nat>, i: int) {
    && 0 <= i < |order|
    && (forall j :: 0 <= j < i ==> Freq(freq, order[j]) > Freq(freq, order[i]))
    && (forall j :: i <= j < |order| ==> Freq(freq, order[j]) >= Freq(freq, order[i]))
  }

  /** The first key of `order` among those of least frequency. */
  function LeastUsed(order: seq<Key>, freq: map<Key, nat>): (k: Key)
    requires order != []
    ensures exists i :: FirstLeast(order, freq, i) && order[i] == k
  {
    if |order| == 1 then
      assert FirstLeast(order, freq, 0);
      order[0]
    else
      var rest := LeastUsed(order[1..], freq);
      ghost var i :| FirstLeast(order[1..], freq, i) && order[1..][i] == rest;
      assert forall j :: 1 <= j < |order| ==> order[j] == order[1..][j - 1];
      if Freq(freq, order[0]) <= Freq(freq, rest) then
        assert FirstLeast(order, freq, 0);
        order[0]
      else
        assert FirstLeast(order, freq, i + 1);
        rest
  }

  function Candidate(p: Policy): (r: Option<Key>)
    ensures r.None? <==> p.order == []
    ensures r.Some? ==> r.value in p.order
  {
    if p.order == [] then None
    else
      match p
      case Fifo(order) => Some(order[0])
      case Lru(order) => Some(order[0])
      case Lfu(order, freq) => Some(LeastUsed(order, freq))
  }
}
