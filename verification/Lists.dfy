/**
 The list operations of CZMQ and Ruby that the extension uses.
 */
module Lists {
  predicate NoDup<T(==)>(s: seq<T>) {
    forall i, j :: 0 <= i < j < |s| ==> s[i] != s[j]
  }

  lemma {:induction false} NoDupCounts<T>(s: seq<T>, x: T)
    requires NoDup(s)
    ensures multiset(s)[x] == if x in s then 1 else 0
  {
    if s != [] {
      assert s == s[..|s| - 1] + [s[|s| - 1]];
      NoDupCounts(s[..|s| - 1], x);
    }
  }

  function Without<T>(s: seq<T>, i: nat): seq<T>
    requires i < |s|
  {
    s[..i] + s[i + 1..]
  }

  lemma WithoutMembers<T>(s: seq<T>, i: nat)
    requires i < |s|
    ensures forall x :: x in Without(s, i) ==> x in s
    ensures forall x :: x in s && x != s[i] ==> x in Without(s, i)
    ensures NoDup(s) ==> NoDup(Without(s, i)) && s[i] !in Without(s, i)
  {
    forall x | x in s && x != s[i] ensures x in Without(s, i) {
      var j :| 0 <= j < |s| && s[j] == x;
      assert Without(s, i)[if j < i then j else j - 1] == x;
    }
  }

  /** What `f` gives for each entry. */
  function Each<T, U>(f: T -> U, s: seq<T>): (r: seq<U>)
    ensures |r| == |s| && forall i :: 0 <= i < |s| ==> r[i] == f(s[i])
  {
    seq(|s|, i requires 0 <= i < |s| => f(s[i]))
  }

  // ---------------------------------------------------------------------------------------------------------
  // zlist_remove and zmsg_remove
  // ---------------------------------------------------------------------------------------------------------

  /** Drops the first occurrence, if any. */
  function RemoveFirst<T(==)>(s: seq<T>, x: T): (r: seq<T>)
    ensures |r| <= |s|
  {
    if s == [] then [] else if s[0] == x then s[1..] else [s[0]] + RemoveFirst(s[1..], x)
  }

  lemma {:induction false} RemoveFirstAbsent<T>(s: seq<T>, x: T)
    requires x !in s
    ensures RemoveFirst(s, x) == s
  {
    if s != [] {
      RemoveFirstAbsent(s[1..], x);
      assert s == [s[0]] + s[1..];
    }
  }

  lemma {:induction false} RemoveFirstIs<T>(s: seq<T>, x: T, i: nat)
    requires i < |s| && s[i] == x && x !in s[..i]
    ensures RemoveFirst(s, x) == Without(s, i)
  {
    if i > 0 {
      assert s[0] == s[..i][0] && s[..i] == [s[0]] + s[1..][..i - 1];
      RemoveFirstIs(s[1..], x, i - 1);
    }
  }

  lemma RemoveFirstAt<T>(s: seq<T>, i: nat)
    requires NoDup(s) && i < |s|
    ensures RemoveFirst(s, s[i]) == Without(s, i)
  {
    RemoveFirstIs(s, s[i], i);
  }

  lemma RemoveFirstOnce<T>(s: seq<T>, x: T)
    requires NoDup(s)
    ensures NoDup(RemoveFirst(s, x))
    ensures forall y :: y in RemoveFirst(s, x) <==> y in s && y != x
  {
    if x in s {
      var i :| 0 <= i < |s| && s[i] == x;
      RemoveFirstAt(s, i);
      WithoutMembers(s, i);
    } else {
      RemoveFirstAbsent(s, x);
    }
  }

  function IndexOf<T(==)>(s: seq<T>, x: T): (i: nat)
    requires x in s
    ensures i < |s| && s[i] == x
  {
    if s[0] == x then 0 else 1 + IndexOf(s[1..], x)
  }

  /** A list without the entry `x`, if it has one. */
  function Less<T(==)>(s: seq<T>, x: T): seq<T> {
    if x in s then Without(s, IndexOf(s, x)) else s
  }

  lemma RemoveFirstIsLess<T>(s: seq<T>, x: T)
    requires NoDup(s)
    ensures RemoveFirst(s, x) == Less(s, x)
  {
    if x in s { RemoveFirstAt(s, IndexOf(s, x)); } else { RemoveFirstAbsent(s, x); }
  }

  // ---------------------------------------------------------------------------------------------------------
  // rb_ary_delete
  // ---------------------------------------------------------------------------------------------------------

  /** Every equal entry goes. */
  function DeleteAll<T(==)>(s: seq<T>, x: T): (r: seq<T>)
    ensures |r| + multiset(s)[x] == |s|
  {
    if s == [] then []
    else
      assert s == [s[0]] + s[1..];
      if s[0] == x then DeleteAll(s[1..], x) else [s[0]] + DeleteAll(s[1..], x)
  }

  method ArrayDelete<T(==)>(s: seq<T>, x: T) returns (r: seq<T>)
    ensures r == DeleteAll(s, x)
  {
    r := [];
    var i := 0;
    while i < |s|
      invariant i <= |s|
      invariant r + DeleteAll(s[i..], x) == DeleteAll(s, x)
    {
      assert s[i..][1..] == s[i + 1..];
      if s[i] != x { r := r + [s[i]]; }
      i := i + 1;
    }
  }

  lemma {:induction false} DeletedIsGone<T>(s: seq<T>, x: T)
    ensures x !in DeleteAll(s, x)
    ensures forall y :: y in DeleteAll(s, x) <==> y in s && y != x
  {
    if s != [] {
      assert s == [s[0]] + s[1..];
      DeletedIsGone(s[1..], x);
    }
  }

  /** What is left are entries that differ, in the order they had, and as many as there are. */
  lemma {:induction false} DeleteKeepsOrder<T>(s: seq<T>, x: T) returns (kept: seq<nat>)
    ensures |DeleteAll(s, x)| == |kept| == |s| - multiset(s)[x]
    ensures forall k :: 0 <= k < |kept| ==> kept[k] < |s| && s[kept[k]] != x && DeleteAll(s, x)[k] == s[kept[k]]
    ensures forall k, l :: 0 <= k < l < |kept| ==> kept[k] < kept[l]
  {
    if s == [] {
      kept := [];
    } else {
      var later := DeleteKeepsOrder(s[1..], x);
      var moved := seq(|later|, k requires 0 <= k < |later| => later[k] + 1);
      assert forall k :: 0 <= k < |later| ==> s[1..][later[k]] == s[moved[k]];
      kept := if s[0] == x then moved else [0] + moved;
    }
  }

  lemma {:induction false} DeleteNone<T>(s: seq<T>, x: T)
    requires x !in s
    ensures DeleteAll(s, x) == s
  {
    if s != [] {
      assert s == [s[0]] + s[1..];
      DeleteNone(s[1..], x);
    }
  }

  lemma {:induction false} DeleteBoth<T>(s: seq<T>, t: seq<T>, x: T)
    ensures DeleteAll(s + t, x) == DeleteAll(s, x) + DeleteAll(t, x)
  {
    if s == [] {
      assert s + t == t;
    } else {
      assert (s + t)[1..] == s[1..] + t;
      DeleteBoth(s[1..], t, x);
    }
  }

  /** An entry that is there once is taken out of its place. */
  lemma DeleteOne<T>(s: seq<T>, i: nat)
    requires i < |s| && multiset(s)[s[i]] == 1
    ensures DeleteAll(s, s[i]) == Without(s, i)
  {
    var x, before, after := s[i], s[..i], s[i + 1..];
    assert s == before + ([x] + after);
    assert multiset(s)[x] == multiset(before)[x] + 1 + multiset(after)[x];
    assert x !in multiset(before) && x !in multiset(after);
    DeleteBoth(before, [x] + after, x);
    DeleteNone(before, x);
    DeleteNone(after, x);
    assert ([x] + after)[1..] == after;
  }
}
