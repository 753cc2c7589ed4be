/** The policy objects, each proved against the policy value it stands for. */
module PolicyClasses {
  import opened Prelude
  import P = Policies

  /** LRU: `_order` is reordered in place. */
  class LruPolicy {
    var order: seq<Key>

    ghost predicate Valid()
      reads this
    {
      NoDup(order)
    }

    ghost function View(): P.Policy
      reads this
    {
      P.Lru(order)
    }

    constructor ()
      ensures Valid() && View() == P.Fresh(P.LRU)
    {
      order := [];
    }

    method OnGet(k: Key)
      requires Valid()
      modifies this
      ensures Valid() && View() == P.OnGet(old(View()), k)
    {
      if k in order {
        order := MoveToEnd(order, k);
      }
    }

    method OnPut(k: Key)
      requires Valid()
      modifies this
      ensures Valid() && View() == P.OnPut(old(View()), k)
    {
      if k !in order {
        NoDupSnoc(order, k);
        order := order + [k];
        WithoutAppend(old(order), [k], k);
      }
      order := MoveToEnd(order, k);
    }

    method OnDelete(k: Key)
      requires Valid()
      modifies this
      ensures Valid() && View() == P.OnDelete(old(View()), k)
    {
      WithoutNoDup(order, k);
      order := Without(order, k);
    }

    method EvictCandidate() returns (r: Option<Key>)
      ensures r == P.Candidate(View())
    {
      if order == [] { return None; }
      return Some(order[0]);
    }

    method Clear()
      modifies this
      ensures Valid() && View() == P.Fresh(P.LRU)
    {
      order := [];
    }
  }

  /** FIFO: `_order` is appended to and popped in place, and reads leave it alone. */
  class FifoPolicy {
    var order: seq<Key>

    ghost predicate Valid()
      reads this
    {
      NoDup(order)
    }

    ghost function View(): P.Policy
      reads this
    {
      P.Fifo(order)
    }

    constructor ()
      ensures Valid() && View() == P.Fresh(P.FIFO)
    {
      order := [];
    }

    method OnGet(k: Key)
      requires Valid()
      modifies this
      ensures Valid() && View() == P.OnGet(old(View()), k)
    {
    }

    method OnPut(k: Key)
      requires Valid()
      modifies this
      ensures Valid() && View() == P.OnPut(old(View()), k)
    {
      if k !in order {
        NoDupSnoc(order, k);
        order := order + [k];
      }
    }

    method OnDelete(k: Key)
      requires Valid()
      modifies this
      ensures Valid() && View() == P.OnDelete(old(View()), k)
    {
      WithoutNoDup(order, k);
      order := Without(order, k);
    }

    method EvictCandidate() returns (r: Option<Key>)
      ensures r == P.Candidate(View())
    {
      if order == [] { return None; }
      return Some(order[0]);
    }

    method Clear()
      modifies this
      ensures Valid() && View() == P.Fresh(P.FIFO)
    {
      order := [];
    }
  }

  // ---------------------------------------------------------------- the LFU index

  function KeysAt(freq: map<Key, nat>, f: nat): set<Key> {
    set k | k in freq && freq[k] == f
  }

  /** The bucket of frequency `f`: its keys by last touch. */
  function Bucket(order: seq<Key>, freq: map<Key, nat>, f: nat): (r: seq<Key>)
    ensures forall k {:trigger k in r} :: k in r <==> k in order && k in freq && freq[k] == f
  {
    Keep(order, KeysAt(freq, f))
  }

  /** The buckets partition the tracked keys by frequency, and none is empty. */
  ghost predicate Indexed(order: seq<Key>, freq: map<Key, nat>, buckets: map<nat, seq<Key>>) {
    Filled(order, freq, buckets) && Covered(freq, buckets)
  }

  ghost predicate Filled(order: seq<Key>, freq: map<Key, nat>, buckets: map<nat, seq<Key>>) {
    forall f {:trigger buckets[f]} :: f in buckets ==> buckets[f] == Bucket(order, freq, f) && buckets[f] != []
  }

  ghost predicate Covered(freq: map<Key, nat>, buckets: map<nat, seq<Key>>) {
    forall k :: k in freq ==> freq[k] in buckets
  }

  /** The index in one expression. */
  ghost function BucketsOf(order: seq<Key>, freq: map<Key, nat>): map<nat, seq<Key>> {
    map f | f in freq.Values :: Bucket(order, freq, f)
  }

  lemma IndexedIffBucketsOf(order: seq<Key>, freq: map<Key, nat>, buckets: map<nat, seq<Key>>)
    requires forall k :: k in freq ==> k in order
    ensures Indexed(order, freq, buckets) <==> buckets == BucketsOf(order, freq)
  {
    if Indexed(order, freq, buckets) {
      forall f | f in buckets ensures f in freq.Values {
        HeadIsMember(buckets[f]);
      }
      assert buckets.Keys == BucketsOf(order, freq).Keys;
    }
    if buckets == BucketsOf(order, freq) {
      forall f | f in buckets ensures buckets[f] != [] {
        var k :| k in freq && freq[k] == f;
        assert k in Bucket(order, freq, f);
      }
    }
  }

  ghost predicate IsMin(buckets: map<nat, seq<Key>>, m: nat) {
    && (forall f :: f in buckets ==> m <= f)
    && (m in buckets || (m == 0 && buckets.Keys == {}))
  }

  lemma BucketMoved(order: seq<Key>, freq: map<Key, nat>, k: Key, f: nat)
    requires k in freq
    ensures Bucket(MoveToEnd(order, k), freq[k := freq[k] + 1], f) ==
            (if f == freq[k] then Without(Bucket(order, freq, f), k)
             else if f == freq[k] + 1 then Bucket(order, freq, f) + [k]
             else Bucket(order, freq, f))
  {
    var freq' := freq[k := freq[k] + 1];
    var keys := KeysAt(freq', f);
    KeepAppend(Without(order, k), [k], keys);
    KeepWithout(order, k, keys);
    KeepWithout(order, k, KeysAt(freq, f));
    assert keys - {k} == KeysAt(freq, f) - {k};
    if f != freq[k] { assert KeysAt(freq, f) - {k} == KeysAt(freq, f); }
    assert k in keys <==> f == freq[k] + 1;
    assert Keep([k], keys) == if k in keys then [k] else [];
  }

  lemma BucketAdded(order: seq<Key>, freq: map<Key, nat>, k: Key, f: nat)
    requires k !in freq
    ensures Bucket(order + [k], freq[k := 1], f) ==
            if f == 1 then Keep(order, KeysAt(freq, f) + {k}) + [k] else Bucket(order, freq, f)
  {
    var keys := KeysAt(freq[k := 1], f);
    KeepAppend(order, [k], keys);
    assert Keep([k], keys) == if k in keys then [k] else [];
    assert keys == if f == 1 then KeysAt(freq, f) + {k} else KeysAt(freq, f);
  }

  lemma BucketRemoved(order: seq<Key>, freq: map<Key, nat>, k: Key, f: nat)
    ensures Bucket(Without(order, k), freq - {k}, f) == Without(Bucket(order, freq, f), k)
  {
    assert KeysAt(freq - {k}, f) == KeysAt(freq, f) - {k};
    KeepWithout(order, k, KeysAt(freq, f));
    KeepWithout(order, k, KeysAt(freq, f) - {k});
    assert KeysAt(freq, f) - {k} - {k} == KeysAt(freq, f) - {k};
  }

  /** `bucket.pop(key)`, and the bucket goes when it is empty. */
  function Popped(buckets: map<nat, seq<Key>>, f: nat, k: Key): map<nat, seq<Key>>
    requires f in buckets
  {
    if Without(buckets[f], k) == [] then buckets - {f} else buckets[f := Without(buckets[f], k)]
  }

  /** `self._freq_to_keys[f][key] = None` on a `defaultdict`. */
  function Pushed(buckets: map<nat, seq<Key>>, f: nat, k: Key): map<nat, seq<Key>> {
    buckets[f := (if f in buckets then buckets[f] else []) + [k]]
  }

  lemma EmptyBucket(order: seq<Key>, freq: map<Key, nat>, buckets: map<nat, seq<Key>>, f: nat)
    requires Indexed(order, freq, buckets)
    ensures f !in buckets ==> Bucket(order, freq, f) == []
  {
    HeadIsMember(Bucket(order, freq, f));
  }

  lemma NoKeysNoBuckets(order: seq<Key>, freq: map<Key, nat>, buckets: map<nat, seq<Key>>)
    requires Indexed(order, freq, buckets)
    ensures order == [] ==> buckets.Keys == {}
  {
    forall f | f in buckets ensures order != [] { HeadIsMember(buckets[f]); }
  }

  lemma PositiveBuckets(order: seq<Key>, freq: map<Key, nat>, buckets: map<nat, seq<Key>>)
    requires P.Ok(P.Lfu(order, freq)) && Indexed(order, freq, buckets)
    ensures forall f :: f in buckets ==> f >= 1
  {
    forall f | f in buckets ensures f >= 1 { HeadIsMember(buckets[f]); }
  }

  lemma BumpedBucket(order: seq<Key>, freq: map<Key, nat>, buckets: map<nat, seq<Key>>, k: Key, f: nat)
    requires Indexed(order, freq, buckets) && k in freq
    requires f in Pushed(Popped(buckets, freq[k], k), freq[k] + 1, k)
    ensures var bucket := Pushed(Popped(buckets, freq[k], k), freq[k] + 1, k)[f];
            bucket == Bucket(MoveToEnd(order, k), freq[k := freq[k] + 1], f) && bucket != []
  {
    BucketMoved(order, freq, k, f);
    EmptyBucket(order, freq, buckets, f);
  }

  lemma BumpedCovers(order: seq<Key>, freq: map<Key, nat>, buckets: map<nat, seq<Key>>, k: Key, j: Key)
    requires Indexed(order, freq, buckets) && k in freq && j in freq && j in order
    ensures freq[k := freq[k] + 1][j] in Pushed(Popped(buckets, freq[k], k), freq[k] + 1, k)
  {
    if j != k && freq[j] == freq[k] { StaysIn(order, freq, buckets, j, k); }
  }

  lemma FilledBumped(order: seq<Key>, freq: map<Key, nat>, buckets: map<nat, seq<Key>>, k: Key)
    requires Indexed(order, freq, buckets) && k in freq
    ensures Filled(MoveToEnd(order, k), freq[k := freq[k] + 1], Pushed(Popped(buckets, freq[k], k), freq[k] + 1, k))
  {
    var buckets' := Pushed(Popped(buckets, freq[k], k), freq[k] + 1, k);
    forall f | f in buckets'
      ensures buckets'[f] == Bucket(MoveToEnd(order, k), freq[k := freq[k] + 1], f) && buckets'[f] != []
    {
      BumpedBucket(order, freq, buckets, k, f);
    }
  }

  lemma CoveredBumped(order: seq<Key>, freq: map<Key, nat>, buckets: map<nat, seq<Key>>, k: Key)
    requires Indexed(order, freq, buckets) && k in freq && forall j :: j in freq ==> j in order
    ensures Covered(freq[k := freq[k] + 1], Pushed(Popped(buckets, freq[k], k), freq[k] + 1, k))
  {
    var freq' := freq[k := freq[k] + 1];
    forall j | j in freq' ensures freq'[j] in Pushed(Popped(buckets, freq[k], k), freq[k] + 1, k) {
      BumpedCovers(order, freq, buckets, k, j);
    }
  }

  /** `_min_freq` after a key of frequency `f` left its bucket for the next one. */
  function MinAfterBump(popped: map<nat, seq<Key>>, m: nat, f: nat): nat {
    if f !in popped && m == f then f + 1 else m
  }

  lemma MinBumped(buckets: map<nat, seq<Key>>, m: nat, f: nat, k: Key)
    requires IsMin(buckets, m) && f in buckets
    ensures IsMin(Pushed(Popped(buckets, f, k), f + 1, k), MinAfterBump(Popped(buckets, f, k), m, f))
  {
  }

  lemma TouchedView(order: seq<Key>, freq: map<Key, nat>, k: Key)
    requires P.Ok(P.Lfu(order, freq)) && k in freq
    ensures P.OnGet(P.Lfu(order, freq), k) == P.Lfu(MoveToEnd(order, k), freq[k := freq[k] + 1])
  {
  }

  lemma HasBucket(order: seq<Key>, freq: map<Key, nat>, buckets: map<nat, seq<Key>>, k: Key)
    requires buckets == BucketsOf(order, freq) && k in freq
    ensures freq[k] in buckets
  {
  }

  lemma BucketsBumped(order: seq<Key>, freq: map<Key, nat>, buckets: map<nat, seq<Key>>, k: Key)
    requires P.Ok(P.Lfu(order, freq)) && buckets == BucketsOf(order, freq) && k in freq && freq[k] in buckets
    ensures Pushed(Popped(buckets, freq[k], k), freq[k] + 1, k) ==
              BucketsOf(MoveToEnd(order, k), freq[k := freq[k] + 1])
  {
    var order', freq' := MoveToEnd(order, k), freq[k := freq[k] + 1];
    var buckets' := Pushed(Popped(buckets, freq[k], k), freq[k] + 1, k);
    assert Indexed(order', freq', buckets') by {
      IndexedIffBucketsOf(order, freq, buckets);
      FilledBumped(order, freq, buckets, k);
      CoveredBumped(order, freq, buckets, k);
    }
    IndexedIffBucketsOf(order', freq', buckets');
  }

  /** The index after `_bump`. */
  lemma Bumped(order: seq<Key>, freq: map<Key, nat>, buckets: map<nat, seq<Key>>, m: nat, k: Key,
               order': seq<Key>, freq': map<Key, nat>, buckets': map<nat, seq<Key>>, m': nat)
    requires Sound(P.Lfu(order, freq), buckets, m) && k in freq && freq[k] in buckets
    requires order' == MoveToEnd(order, k) && freq' == freq[k := freq[k] + 1]
    requires buckets' == Pushed(Popped(buckets, freq[k], k), freq[k] + 1, k)
    requires m' == MinAfterBump(Popped(buckets, freq[k], k), m, freq[k])
    ensures P.Lfu(order', freq') == P.OnGet(P.Lfu(order, freq), k)
    ensures Sound(P.Lfu(order', freq'), buckets', m')
  {
    TouchedView(order, freq, k);
    BucketsBumped(order, freq, buckets, k);
    MinBumped(buckets, m, freq[k], k);
  }

  lemma RemovedIndex(order: seq<Key>, freq: map<Key, nat>, buckets: map<nat, seq<Key>>, m: nat, m': nat, k: Key)
    requires Sound(P.Lfu(order, freq), buckets, m) && k in freq && freq[k] in buckets
    requires var popped := Popped(buckets, freq[k], k);
             if freq[k] !in popped && m == freq[k] then IsMin(popped, m') else m' == m
    ensures Sound(P.OnDelete(P.Lfu(order, freq), k), Popped(buckets, freq[k], k), m')
  {
    IndexedIffBucketsOf(order, freq, buckets);
    IndexRemoved(order, freq, buckets, k);
    MinPopped(buckets, m, freq[k], k);
    IndexedIffBucketsOf(Without(order, k), freq - {k}, Popped(buckets, freq[k], k));
  }

  lemma AddedIndex(order: seq<Key>, freq: map<Key, nat>, buckets: map<nat, seq<Key>>, m: nat, k: Key)
    requires Sound(P.Lfu(order, freq), buckets, m) && k !in freq
    ensures Sound(P.OnPut(P.Lfu(order, freq), k), Pushed(buckets, 1, k), 1)
  {
    IndexedIffBucketsOf(order, freq, buckets);
    IndexAdded(order, freq, buckets, k);
    IndexedIffBucketsOf(order + [k], freq[k := 1], Pushed(buckets, 1, k));
    NoDupSnoc(order, k);
    PositiveBuckets(order + [k], freq[k := 1], Pushed(buckets, 1, k));
  }

  lemma MinPopped(buckets: map<nat, seq<Key>>, m: nat, f: nat, k: Key)
    requires IsMin(buckets, m) && f in buckets
    ensures f in Popped(buckets, f, k) || m != f ==> IsMin(Popped(buckets, f, k), m)
  {
    assert m in buckets;
    assert f in Popped(buckets, f, k) || m != f ==> m in Popped(buckets, f, k);
  }

  /** A bucket that loses one of two keys does not go. */
  lemma StaysIn(order: seq<Key>, freq: map<Key, nat>, buckets: map<nat, seq<Key>>, j: Key, k: Key)
    requires Indexed(order, freq, buckets) && j in freq && j != k
    requires k in freq && freq[j] == freq[k] && j in order
    ensures freq[j] in Popped(buckets, freq[k], k)
  {
    assert j in Without(buckets[freq[j]], k);
  }

  lemma IndexAdded(order: seq<Key>, freq: map<Key, nat>, buckets: map<nat, seq<Key>>, k: Key)
    requires Indexed(order, freq, buckets) && k !in freq && k !in order
    ensures Indexed(order + [k], freq[k := 1], Pushed(buckets, 1, k))
  {
    var buckets' := Pushed(buckets, 1, k);
    forall f | f in buckets' ensures buckets'[f] == Bucket(order + [k], freq[k := 1], f) && buckets'[f] != [] {
      BucketAdded(order, freq, k, f);
      KeepAgree(order, KeysAt(freq, f) + {k}, KeysAt(freq, f));
      EmptyBucket(order, freq, buckets, f);
    }
  }

  lemma IndexRemoved(order: seq<Key>, freq: map<Key, nat>, buckets: map<nat, seq<Key>>, k: Key)
    requires Indexed(order, freq, buckets) && k in freq && forall j :: j in freq ==> j in order
    ensures Indexed(Without(order, k), freq - {k}, Popped(buckets, freq[k], k))
  {
    var buckets' := Popped(buckets, freq[k], k);
    forall f | f in buckets' ensures buckets'[f] == Bucket(Without(order, k), freq - {k}, f) && buckets'[f] != [] {
      BucketRemoved(order, freq, k, f);
    }
    forall j | j in freq - {k} ensures freq[j] in buckets' {
      if freq[j] == freq[k] { StaysIn(order, freq, buckets, j, k); }
    }
  }

  /** The head of the least bucket is the first key of least frequency. */
  lemma {:induction false} KeepHead(order: seq<Key>, keys: set<Key>, i: nat)
    requires i < |order| && order[i] in keys && forall j :: 0 <= j < i ==> order[j] !in keys
    ensures Keep(order, keys) != [] && Keep(order, keys)[0] == order[i]
  {
    if i > 0 { KeepHead(order[1..], keys, i - 1); }
  }

  lemma LeastBucketHead(order: seq<Key>, freq: map<Key, nat>, buckets: map<nat, seq<Key>>, m: nat)
    requires P.Ok(P.Lfu(order, freq)) && Indexed(order, freq, buckets) && IsMin(buckets, m) && order != []
    ensures m in buckets && m >= 1 && buckets[m][0] == P.LeastUsed(order, freq)
  {
    HeadIsMember(order);
    var k := P.LeastUsed(order, freq);
    var i :| P.FirstLeast(order, freq, i) && order[i] == k;
    assert freq[k] in buckets;
    var head := buckets[m][0];
    assert head in buckets[m];
    var h :| 0 <= h < |order| && order[h] == head;
    assert freq[k] <= P.Freq(freq, order[h]);
    KeepHead(order, KeysAt(freq, m), i);
  }

  /** Buckets and cached minimum are those of the policy value `p`. */
  ghost predicate Sound(p: P.Policy, buckets: map<nat, seq<Key>>, m: nat) {
    match p
    case Lfu(order, freq) => P.Ok(p) && buckets == BucketsOf(order, freq) && IsMin(buckets, m)
    case Lru(_) => false
    case Fifo(_) => false
  }

  /** `min(self._freq_to_keys, default=0)`. */
  method Least(buckets: map<nat, seq<Key>>) returns (m: nat)
    ensures IsMin(buckets, m)
  {
    var rest := buckets.Keys;
    if rest == {} {
      return 0;
    }
    m :| m in rest;
    rest := rest - {m};
    while rest != {}
      invariant rest <= buckets.Keys && m in buckets
      invariant forall f :: f in buckets && f !in rest ==> m <= f
      decreases |rest|
    {
      var f :| f in rest;
      if f < m { m := f; }
      rest := rest - {f};
    }
  }

  /** LFU: a key-to-frequency map, frequency buckets and the cached least frequency. */
  class LfuPolicy {
    var keyToFreq: map<Key, nat>
    var freqToKeys: map<nat, seq<Key>>
    var minFreq: nat
    ghost var order: seq<Key>

    ghost predicate Valid()
      reads this
    {
      Sound(View(), freqToKeys, minFreq)
    }

    /** The index stands for the tracked keys by last touch and their frequencies. */
    ghost function View(): P.Policy
      reads this
    {
      P.Lfu(order, keyToFreq)
    }

    constructor ()
      ensures Valid() && View() == P.Fresh(P.LFU)
    {
      keyToFreq, freqToKeys, minFreq, order := map[], map[], 0, [];
    }

    method OnGet(k: Key)
      requires Valid()
      modifies this
      ensures Valid() && View() == P.OnGet(old(View()), k)
    {
      if k in keyToFreq {
        HasBucket(order, keyToFreq, freqToKeys, k);
        ghost var o, kf, fk, m := order, keyToFreq, freqToKeys, minFreq;
        Bump(k);
        Bumped(o, kf, fk, m, k, order, keyToFreq, freqToKeys, minFreq);
      }
    }

    method OnPut(k: Key)
      requires Valid()
      modifies this
      ensures Valid() && View() == P.OnPut(old(View()), k)
    {
      if k in keyToFreq {
        OnGet(k);
        return;
      }
      AddedIndex(order, keyToFreq, freqToKeys, minFreq, k);
      keyToFreq := keyToFreq[k := 1];
      PushKey(1, k);
      minFreq := 1;
      order := order + [k];
    }

    method OnDelete(k: Key)
      requires Valid()
      modifies this
      ensures Valid() && View() == P.OnDelete(old(View()), k)
    {
      if k !in keyToFreq {
        return;
      }
      HasBucket(order, keyToFreq, freqToKeys, k);
      var freq := keyToFreq[k];
      ghost var o, kf, fk, m := order, keyToFreq, freqToKeys, minFreq;
      keyToFreq := keyToFreq - {k};
      var emptied := PopKey(freq, k);
      if emptied && minFreq == freq {
        minFreq := Least(freqToKeys);
      }
      order := Without(order, k);
      RemovedIndex(o, kf, fk, m, minFreq, k);
    }

    method EvictCandidate() returns (r: Option<Key>)
      requires Valid()
      ensures r == P.Candidate(View())
    {
      IndexedIffBucketsOf(order, keyToFreq, freqToKeys);
      if order != [] {
        LeastBucketHead(order, keyToFreq, freqToKeys, minFreq);
      } else {
        NoKeysNoBuckets(order, keyToFreq, freqToKeys);
      }
      if minFreq == 0 || minFreq !in freqToKeys || freqToKeys[minFreq] == [] {
        return None;
      }
      return Some(freqToKeys[minFreq][0]);
    }

    method Clear()
      modifies this
      ensures Valid() && View() == P.Fresh(P.LFU)
    {
      keyToFreq, freqToKeys, minFreq, order := map[], map[], 0, [];
    }

    /** Takes `k` out of its bucket, and the bucket out of the index when it is then empty. */
    method PopKey(freq: nat, k: Key) returns (emptied: bool)
      requires freq in freqToKeys
      modifies this`freqToKeys
      ensures freqToKeys == Popped(old(freqToKeys), freq, k)
      ensures emptied <==> freq !in freqToKeys
    {
      var bucket := Without(freqToKeys[freq], k);
      emptied := bucket == [];
      if emptied {
        freqToKeys := freqToKeys - {freq};
      } else {
        freqToKeys := freqToKeys[freq := bucket];
      }
    }

    /** Appends `k` to the bucket of `freq`, which is created when missing. */
    method PushKey(freq: nat, k: Key)
      modifies this`freqToKeys
      ensures freqToKeys == Pushed(old(freqToKeys), freq, k)
    {
      var bucket := if freq in freqToKeys then freqToKeys[freq] else [];
      freqToKeys := freqToKeys[freq := bucket + [k]];
    }

    /** The key moves to the next bucket; `Bumped` says that this keeps the index sound. */
    method Bump(k: Key)
      requires k in keyToFreq && keyToFreq[k] in freqToKeys
      modifies this
      ensures freqToKeys == Pushed(Popped(old(freqToKeys), old(keyToFreq[k]), k), old(keyToFreq[k]) + 1, k)
      ensures minFreq == MinAfterBump(Popped(old(freqToKeys), old(keyToFreq[k]), k), old(minFreq), old(keyToFreq[k]))
      ensures order == MoveToEnd(old(order), k) && keyToFreq == old(keyToFreq)[k := old(keyToFreq[k]) + 1]
    {
      var freq := keyToFreq[k];
      var emptied := PopKey(freq, k);
      if emptied && minFreq == freq {
        minFreq := freq + 1;
      }
      keyToFreq := keyToFreq[k := freq + 1];
      PushKey(freq + 1, k);
      order := MoveToEnd(order, k);
    }
  }
}
