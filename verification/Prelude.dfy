/** Keys, values and the sequence operations shared by every module of the model. */
module Prelude {

  /** Any hashable key.  Only equality is ever used. */
  type Key(==, !new)

  /** Any cached object. */
  type Value(==, !new)

  datatype Option<+T> = None | Some(value: T)

  predicate NoDup<T(==)>(s: seq<T>) {
    s == [] || (s[0] !in s[1..] && NoDup(s[1..]))
  }

  lemma {:induction false} NoDupIndices<T(!new)>(s: seq<T>, i: nat, j: nat)
    requires NoDup(s) && i < j < |s|
    ensures s[i] != s[j]
  {
    if i == 0 {
      assert s[j] == s[1..][j - 1];
    } else {
      NoDupIndices(s[1..], i - 1, j - 1);
    }
  }

  lemma {:induction false} NoDupSnoc<T(!new)>(s: seq<T>, k: T)
    ensures NoDup(s + [k]) <==> NoDup(s) && k !in s
  {
    if s != [] {
      NoDupSnoc(s[1..], k);
      assert (s + [k])[1..] == s[1..] + [k];
    }
  }

  function Elems<T(==)>(s: seq<T>): (r: set<T>) {
    set x | x in s
  }

  lemma HeadIsMember<T>(s: seq<T>)
    ensures s != [] ==> s[0] in s
  {
  }

  lemma NoDupCardinality<T>(s: seq<T>)
    requires NoDup(s)
    ensures |Elems(s)| == |s|
  {
    if s != [] {
      NoDupCardinality(s[1..]);
      assert Elems(s) == {s[0]} + Elems(s[1..]);
    } else {
      assert Elems(s) == {};
    }
  }

  /** What `OrderedDict.pop(key, None)` leaves: the other keys in their old order. */
  function Without<T(==, !new)>(s: seq<T>, k: T): (r: seq<T>)
    ensures forall x {:trigger x in r} :: x in r <==> x in s && x != k
    ensures |r| <= |s|
    ensures k in s ==> |r| < |s|
    ensures k !in s ==> r == s
  {
    if s == [] then []
    else if s[0] == k then Without(s[1..], k)
    else [s[0]] + Without(s[1..], k)
  }

  lemma {:induction false} WithoutNoDup<T(!new)>(s: seq<T>, k: T)
    ensures NoDup(s) ==> NoDup(Without(s, k)) && |Without(s, k)| == if k in s then |s| - 1 else |s|
  {
    if s != [] {
      WithoutNoDup(s[1..], k);
      if s[0] != k { assert Without(s, k)[1..] == Without(s[1..], k); }
    }
  }

  /** The elements of `s` that lie in `keep`, in order. */
  function Keep<T(==, !new)>(s: seq<T>, keep: set<T>): (r: seq<T>)
    ensures forall x {:trigger x in r} :: x in r <==> x in s && x in keep
  {
    if s == [] then []
    else if s[0] in keep then [s[0]] + Keep(s[1..], keep)
    else Keep(s[1..], keep)
  }

  /** `OrderedDict.move_to_end`, also for a key that is not there yet. */
  function MoveToEnd<T(==, !new)>(s: seq<T>, k: T): (r: seq<T>)
    ensures forall x {:trigger x in r} :: x in r <==> x in s || x == k
    ensures NoDup(s) ==> NoDup(r)
    ensures NoDup(s) ==> |r| == if k in s then |s| else |s| + 1
  {
    WithoutNoDup(s, k);
    NoDupSnoc(Without(s, k), k);
    Without(s, k) + [k]
  }

  lemma {:induction false} KeepNoDup<T(!new)>(s: seq<T>, keep: set<T>)
    requires NoDup(s)
    ensures NoDup(Keep(s, keep))
  {
    if s != [] {
      KeepNoDup(s[1..], keep);
      if s[0] in keep { assert Keep(s, keep)[1..] == Keep(s[1..], keep); }
    }
  }

  lemma {:induction false} KeepShorter<T(!new)>(s: seq<T>, keep: set<T>)
    ensures |Keep(s, keep)| <= |s|
  {
    if s != [] { KeepShorter(s[1..], keep); }
  }

  lemma WithoutAppend<T(!new)>(s: seq<T>, t: seq<T>, k: T)
    ensures Without(s + t, k) == Without(s, k) + Without(t, k)
  {
    if s == [] {
      assert s + t == t;
    } else {
      assert (s + t)[1..] == s[1..] + t;
    }
  }

  lemma KeepAppend<T(!new)>(s: seq<T>, t: seq<T>, keep: set<T>)
    ensures Keep(s + t, keep) == Keep(s, keep) + Keep(t, keep)
  {
    if s == [] {
      assert s + t == t;
    } else {
      assert (s + t)[1..] == s[1..] + t;
    }
  }

  lemma {:induction false} KeepWithout<T(!new)>(s: seq<T>, k: T, keep: set<T>)
    ensures Keep(Without(s, k), keep) == Without(Keep(s, keep), k) == Keep(s, keep - {k})
  {
    if s != [] {
      KeepWithout(s[1..], k, keep);
      if s[0] != k { assert Without(s, k)[1..] == Without(s[1..], k); }
      if s[0] in keep { assert Keep(s, keep)[1..] == Keep(s[1..], keep); }
    }
  }

  lemma KeepAgree<T(!new)>(s: seq<T>, keep: set<T>, keep': set<T>)
    requires forall x :: x in s ==> (x in keep <==> x in keep')
    ensures Keep(s, keep) == Keep(s, keep')
  {
  }

  lemma KeepAll<T(!new)>(s: seq<T>, keep: set<T>)
    requires forall x :: x in s ==> x in keep
    ensures Keep(s, keep) == s
  {
  }
}
