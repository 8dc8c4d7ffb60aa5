/** A stable insertion sort, standing for `ORDER BY` and for `sortBy`. */
module Sorting {

  ghost predicate TotalPreorder<T(!new)>(le: (T, T) -> bool) {
    && (forall a, b :: le(a, b) || le(b, a))
    && (forall a, b, c :: le(a, b) && le(b, c) ==> le(a, c))
  }

  ghost predicate Sorted<T>(s: seq<T>, le: (T, T) -> bool) {
    forall i, j :: 0 <= i < j < |s| ==> le(s[i], s[j])
  }

  function Insert<T>(x: T, s: seq<T>, le: (T, T) -> bool): seq<T> {
    if s == [] then [x]
    else if le(x, s[0]) then [x] + s
    else [s[0]] + Insert(x, s[1..], le)
  }

  function SortBy<T>(s: seq<T>, le: (T, T) -> bool): seq<T> {
    if s == [] then [] else Insert(s[0], SortBy(s[1..], le), le)
  }

  /** Inserting puts the element at one place and leaves the rest as it was. */
  lemma {:induction false} InsertPlaces<T(!new)>(x: T, s: seq<T>, le: (T, T) -> bool) returns (i: nat)
    requires TotalPreorder(le)
    requires Sorted(s, le)
    ensures i <= |s|
    ensures Insert(x, s, le) == s[..i] + [x] + s[i..]
    ensures forall j :: 0 <= j < i ==> le(s[j], x)
    ensures forall j :: i <= j < |s| ==> le(x, s[j])
  {
    if s == [] || le(x, s[0]) {
      i := 0;
    } else {
      var k := InsertPlaces(x, s[1..], le);
      i := k + 1;
      assert s == [s[0]] + s[1..];
      assert s[..i] == [s[0]] + s[1..][..k];
      assert s[i..] == s[1..][k..];
    }
  }

  lemma {:induction false} SortIsSorted<T(!new)>(s: seq<T>, le: (T, T) -> bool)
    requires TotalPreorder(le)
    ensures Sorted(SortBy(s, le), le)
  {
    if s != [] {
      SortIsSorted(s[1..], le);
      var t := SortBy(s[1..], le);
      var i := InsertPlaces(s[0], t, le);
    }
  }

  lemma {:induction false} SortIsPermutation<T(!new)>(s: seq<T>, le: (T, T) -> bool)
    requires TotalPreorder(le)
    ensures multiset(SortBy(s, le)) == multiset(s)
    ensures |SortBy(s, le)| == |s|
  {
    if s != [] {
      SortIsPermutation(s[1..], le);
      SortIsSorted(s[1..], le);
      var t := SortBy(s[1..], le);
      var i := InsertPlaces(s[0], t, le);
      assert t == t[..i] + t[i..];
      assert s == [s[0]] + s[1..];
    }
  }

  /** Sorting neither adds nor drops elements. */
  lemma {:induction false} SortKeepsMembers<T(!new)>(s: seq<T>, le: (T, T) -> bool)
    requires TotalPreorder(le)
    ensures forall x :: x in SortBy(s, le) <==> x in s
  {
    SortIsPermutation(s, le);
    forall x
      ensures x in SortBy(s, le) <==> x in s
    {
      assert x in SortBy(s, le) <==> x in multiset(SortBy(s, le));
      assert x in s <==> x in multiset(s);
    }
  }

  /** Only equal elements tie under `le`. */
  ghost predicate TiesAreEqual<T>(s: seq<T>, le: (T, T) -> bool) {
    forall i, j :: 0 <= i < |s| && 0 <= j < |s| && le(s[i], s[j]) && le(s[j], s[i]) ==> s[i] == s[j]
  }

  lemma HeadIsInBoth<T>(s: seq<T>, t: seq<T>) returns (i: nat)
    requires multiset(s) == multiset(t) && s != []
    ensures i < |t| && t[i] == s[0]
  {
    assert s[0] in multiset(t);
    i :| 0 <= i < |t| && t[i] == s[0];
  }

  lemma SameHead<T>(s: seq<T>, t: seq<T>, le: (T, T) -> bool)
    requires Sorted(s, le) && Sorted(t, le) && TiesAreEqual(s, le)
    requires multiset(s) == multiset(t)
    requires s != [] && t != []
    ensures s[0] == t[0]
  {
    var i := HeadIsInBoth(s, t);
    var j := HeadIsInBoth(t, s);
    assert i == 0 || le(t[0], t[i]);
    assert j == 0 || le(s[0], s[j]);
  }

  lemma TailOf<T>(s: seq<T>, le: (T, T) -> bool)
    requires Sorted(s, le) && TiesAreEqual(s, le) && s != []
    ensures Sorted(s[1..], le) && TiesAreEqual(s[1..], le)
    ensures multiset(s[1..]) == multiset(s) - multiset{s[0]}
  {
    assert s == [s[0]] + s[1..];
  }

  lemma SameTies<T>(s: seq<T>, t: seq<T>, le: (T, T) -> bool)
    requires TiesAreEqual(s, le) && multiset(s) == multiset(t)
    ensures TiesAreEqual(t, le)
  {
    forall i, j | 0 <= i < |t| && 0 <= j < |t| && le(t[i], t[j]) && le(t[j], t[i])
      ensures t[i] == t[j]
    {
      assert t[i] in multiset(s) && t[j] in multiset(s);
      var k :| 0 <= k < |s| && s[k] == t[i];
      var m :| 0 <= m < |s| && s[m] == t[j];
    }
  }

  lemma SameHeadAndTail<T>(s: seq<T>, t: seq<T>, le: (T, T) -> bool)
    requires Sorted(s, le) && Sorted(t, le) && TiesAreEqual(s, le)
    requires multiset(s) == multiset(t) && s != [] && t != []
    ensures s[0] == t[0] && multiset(s[1..]) == multiset(t[1..])
    ensures Sorted(s[1..], le) && Sorted(t[1..], le) && TiesAreEqual(s[1..], le)
  {
    SameTies(s, t, le);
    SameHead(s, t, le);
    TailOf(s, le);
    TailOf(t, le);
  }

  /** When only equal elements tie, a multiset has one sorted arrangement. */
  lemma {:induction false} SortedIsUnique<T>(s: seq<T>, t: seq<T>, le: (T, T) -> bool)
    requires Sorted(s, le) && Sorted(t, le) && TiesAreEqual(s, le)
    requires multiset(s) == multiset(t)
    ensures s == t
    decreases |s|
  {
    assert |multiset(s)| == |s| && |multiset(t)| == |t|;
    if s != [] {
      SameHeadAndTail(s, t, le);
      SortedIsUnique(s[1..], t[1..], le);
      assert s == [s[0]] + s[1..] && t == [t[0]] + t[1..];
    }
  }
}
