/** The order in which a policy would give up its keys if nothing else happened. */
module EvictionOrder {
  import opened Prelude
  import opened Policies

  /** The candidates one after another. */
  function Evictions(p: Policy): (r: seq<Key>)
    decreases |p.order|
  {
    match Candidate(p)
    case None => []
    case Some(k) => [k] + Evictions(OnDelete(p, k))
  }

  /** The position of a listed key. */
  function Rank(s: seq<Key>, k: Key): (i: nat)
    requires k in s
    ensures i < |s| && s[i] == k && forall j :: 0 <= j < i ==> s[j] != k
  {
    if s[0] == k then 0 else Rank(s[1..], k) + 1
  }

  /** `x` is given up before `y`: it was used less often, or as often and is listed before. */
  predicate Sooner(p: Policy, x: Key, y: Key)
    requires x in p.order && y in p.order
  {
    match p
    case Lfu(order, freq) =>
      Freq(freq, x) < Freq(freq, y) || (Freq(freq, x) == Freq(freq, y) && Rank(order, x) < Rank(order, y))
    case Fifo(order) => Rank(order, x) < Rank(order, y)
    case Lru(order) => Rank(order, x) < Rank(order, y)
  }

  ghost predicate SameKeys(s: seq<Key>, t: seq<Key>) {
    forall k :: k in s <==> k in t
  }

  /** `s` lists keys of `p`, each before those given up later. */
  ghost predicate InOrder(p: Policy, s: seq<Key>)
    requires forall k :: k in s ==> k in p.order
  {
    forall i, j :: 0 <= i < j < |s| ==> Sooner(p, s[i], s[j])
  }

  lemma CandidateIsSoonest(p: Policy, c: Key, k: Key)
    requires Candidate(p) == Some(c) && k in p.order && k != c
    ensures Sooner(p, c, k) && !Sooner(p, k, c)
  {
    if p.Lfu? {
      var i :| FirstLeast(p.order, p.freq, i) && p.order[i] == c;
      LeastIsSoonest(p.order, p.freq, i, k);
    }
  }

  lemma LeastIsSoonest(order: seq<Key>, freq: map<Key, nat>, i: int, k: Key)
    requires FirstLeast(order, freq, i) && k in order && k != order[i]
    ensures Rank(order, order[i]) == i
    ensures Freq(freq, order[i]) < Freq(freq, k) || (Freq(freq, order[i]) == Freq(freq, k) && i < Rank(order, k))
  {
    var r := Rank(order, order[i]);
    if r < i { assert false; }
    var j := Rank(order, k);
    assert order[j] == k && j != i;
  }

  lemma {:induction false} RankWithout(s: seq<Key>, c: Key, x: Key, y: Key)
    requires x in s && y in s && x != c && y != c
    ensures Rank(Without(s, c), x) < Rank(Without(s, c), y) <==> Rank(s, x) < Rank(s, y)
  {
    var t := Without(s, c);
    if s[0] == c {
      RankWithout(s[1..], c, x, y);
    } else {
      assert t[1..] == Without(s[1..], c);
      if s[0] != x && s[0] != y {
        RankWithout(s[1..], c, x, y);
      }
    }
  }

  lemma SoonerAfterDelete(p: Policy, c: Key, x: Key, y: Key)
    requires x in p.order && y in p.order && x != c && y != c
    ensures Sooner(OnDelete(p, c), x, y) <==> Sooner(p, x, y)
  {
    RankWithout(p.order, c, x, y);
  }

  /** A listing of all keys is the eviction order exactly when it is in order. */
  lemma {:induction false} EvictionsIffInOrder(p: Policy, s: seq<Key>)
    requires Ok(p) && NoDup(s) && SameKeys(s, p.order)
    ensures Evictions(p) == s <==> InOrder(p, s)
    decreases |p.order|
  {
    HeadIsMember(p.order);
    HeadIsMember(s);
    if p.order != [] {
      var c := Candidate(p).value;
      if s[0] == c {
        HeadIsCandidate(p, s, c);
        EvictionsIffInOrder(OnDelete(p, c), s[1..]);
        SameHead(c, Evictions(OnDelete(p, c)), s);
      } else {
        CandidateIsSoonest(p, c, s[0]);
        var j :| 0 <= j < |s| && s[j] == c;
        assert !Sooner(p, s[0], s[j]);
        assert Evictions(p)[0] == c;
      }
    }
  }

  lemma SameHead(c: Key, rest: seq<Key>, s: seq<Key>)
    requires s != [] && s[0] == c
    ensures [c] + rest == s <==> rest == s[1..]
  {
    assert s == [c] + s[1..];
    assert ([c] + rest)[1..] == rest;
  }

  /** Behind the candidate stand the other keys. */
  lemma RestOfKeys(p: Policy, s: seq<Key>, c: Key)
    requires NoDup(s) && SameKeys(s, p.order) && s != [] && s[0] == c
    ensures SameKeys(s[1..], OnDelete(p, c).order) && NoDup(s[1..])
  {
    assert forall k :: k in s <==> k == c || k in s[1..];
  }

  lemma SoonerInRest(p: Policy, s: seq<Key>, c: Key, i: nat, j: nat)
    requires NoDup(s) && SameKeys(s, p.order) && s != [] && s[0] == c && i < |s| - 1 && j < |s| - 1
    ensures s[1..][i] in OnDelete(p, c).order && s[1..][j] in OnDelete(p, c).order
    ensures s[i + 1] in p.order && s[j + 1] in p.order
    ensures Sooner(OnDelete(p, c), s[1..][i], s[1..][j]) <==> Sooner(p, s[i + 1], s[j + 1])
  {
    RestOfKeys(p, s, c);
    assert s[1..][i] == s[i + 1] && s[1..][j] == s[j + 1];
    assert s[1..][i] in s[1..] && s[1..][j] in s[1..];
    SoonerAfterDelete(p, c, s[i + 1], s[j + 1]);
  }

  /** With the candidate in front, a listing is in order when its rest is, without the candidate. */
  lemma HeadIsCandidate(p: Policy, s: seq<Key>, c: Key)
    requires Ok(p) && NoDup(s) && SameKeys(s, p.order) && Candidate(p) == Some(c) && s != [] && s[0] == c
    ensures SameKeys(s[1..], OnDelete(p, c).order) && NoDup(s[1..])
    ensures InOrder(p, s) <==> InOrder(OnDelete(p, c), s[1..])
  {
    var rest := s[1..];
    RestOfKeys(p, s, c);
    if InOrder(OnDelete(p, c), rest) {
      forall i, j | 0 <= i < j < |s| ensures Sooner(p, s[i], s[j]) {
        if i == 0 {
          assert s[j] in rest by { assert s[j] == rest[j - 1]; }
          CandidateIsSoonest(p, c, s[j]);
        } else {
          assert Sooner(OnDelete(p, c), rest[i - 1], rest[j - 1]);
          SoonerInRest(p, s, c, i - 1, j - 1);
        }
      }
    }
    if InOrder(p, s) {
      forall i, j | 0 <= i < j < |rest| ensures Sooner(OnDelete(p, c), rest[i], rest[j]) {
        assert Sooner(p, s[i + 1], s[j + 1]);
        SoonerInRest(p, s, c, i, j);
      }
    }
  }

  lemma RankOfIndex(s: seq<Key>, i: nat)
    requires NoDup(s) && i < |s|
    ensures Rank(s, s[i]) == i
  {
    var r := Rank(s, s[i]);
    if r < i { NoDupIndices(s, r, i); }
  }

  /** LRU and FIFO give up their keys as listed, and so does LFU if it used all equally often. */
  lemma ListedOrder(p: Policy)
    requires Ok(p)
    requires p.Lfu? ==> forall j, k :: j in p.order && k in p.order ==> Freq(p.freq, j) == Freq(p.freq, k)
    ensures Evictions(p) == p.order
  {
    forall i, j | 0 <= i < j < |p.order| ensures Sooner(p, p.order[i], p.order[j]) {
      RankOfIndex(p.order, i);
      RankOfIndex(p.order, j);
    }
    EvictionsIffInOrder(p, p.order);
  }
}
