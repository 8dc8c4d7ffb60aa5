/** Laws of the paginator: walks over a changing table, and agreement of the three modes on a fixed one. */
module PaginatorLaws {
  import opened Common
  import opened Paginator
  import Sorting

  /** Keys identify rows, and no row is stored twice. */
  ghost predicate Valid(rows: Table) {
    && WellFormed(rows)
    && (forall r, s :: r in rows && s in rows && r.key == s.key ==> r == s)
    && (forall r :: multiset(rows)[r] <= 1)
  }

  /** Strictly descending keys. */
  ghost predicate Descending(rows: Table) {
    WellFormed(rows) && forall i, j :: 0 <= i < j < |rows| ==> LexLess(rows[j].key, rows[i].key)
  }

  lemma ComparatorOnPairs(a: Row, b: Row)
    requires |a.key| == |b.key| == COLUMNS
    ensures Comparator(NEWEST)(a, b) <==> a.key == b.key || LexLess(b.key, a.key)
    ensures Comparator(OLDEST)(a, b) <==> a.key == b.key || LexLess(a.key, b.key)
  {
    var x, y := a.key, b.key;
    assert x == [x[0], x[1]] && y == [y[0], y[1]];
    assert forall u, v: int :: LexLess([u], [v]) <==> u < v;
    assert x[1..] == [x[1]] && y[1..] == [y[1]];
    assert LexLess(x, y) <==> x[0] < y[0] || (x[0] == y[0] && x[1] < y[1]);
    assert LexLess(y, x) <==> y[0] < x[0] || (x[0] == y[0] && y[1] < x[1]);
    forall descending: bool
      ensures Precedes([Order(0, descending), Order(1, descending)], x, y)
         <==> if x[0] != y[0] then (if descending then x[0] > y[0] else x[0] < y[0])
              else if x[1] != y[1] then (if descending then x[1] > y[1] else x[1] < y[1]) else true
    {
      var one := [Order(1, descending)];
      assert [Order(0, descending), Order(1, descending)][1..] == one && one[1..] == [];
      assert Precedes(one[1..], x, y);
      assert Precedes(one, x, y) <==> if x[1] == y[1] then true else if descending then x[1] > y[1] else x[1] < y[1];
    }
  }

  lemma SameMembers(s: Table, t: Table)
    requires multiset(s) == multiset(t)
    ensures forall r :: r in s <==> r in t
    ensures |s| == |t|
    ensures Valid(s) ==> Valid(t)
  {
    assert |multiset(s)| == |s| && |multiset(t)| == |t|;
    forall r
      ensures r in s <==> r in t
    {
      assert r in s <==> r in multiset(s);
      assert r in t <==> r in multiset(t);
    }
  }

  lemma TwoPositionsCountTwice(s: Table, i: nat, j: nat)
    requires i < j < |s| && s[i] == s[j]
    ensures multiset(s)[s[i]] >= 2
  {
    assert s == s[..j] + s[j..];
    assert s[i] == s[..j][i] && s[j] == s[j..][0];
    assert s[i] in multiset(s[..j]) && s[i] in multiset(s[j..]);
  }

  lemma DistinctPositions(s: Table, i: nat, j: nat)
    requires Valid(s) && i < j < |s|
    ensures s[i].key != s[j].key
  {
    assert s[i] in s && s[j] in s;
    if s[i] == s[j] {
      TwoPositionsCountTwice(s, i, j);
    }
  }

  /** Sorting newest first gives the table's rows in strictly descending key order. */
  lemma NewestDescends(rows: Table)
    requires Valid(rows)
    ensures Descending(Newest(rows)) && Valid(Newest(rows))
    ensures multiset(Newest(rows)) == multiset(rows) && |Newest(rows)| == |rows|
    ensures forall r :: r in Newest(rows) <==> r in rows
  {
    ComparatorIsOrder(NEWEST);
    Sorting.SortIsSorted(rows, Comparator(NEWEST));
    Sorting.SortIsPermutation(rows, Comparator(NEWEST));
    SameMembers(rows, Newest(rows));
    var s := Newest(rows);
    forall i, j | 0 <= i < j < |s|
      ensures LexLess(s[j].key, s[i].key)
    {
      DistinctPositions(s, i, j);
      ComparatorOnPairs(s[i], s[j]);
    }
  }

  /** The descending arrangement of a table's rows is the one `Newest` gives. */
  lemma NewestIsUnique(rows: Table, s: Table)
    requires Valid(rows) && Descending(s) && multiset(s) == multiset(rows)
    ensures s == Newest(rows)
  {
    NewestDescends(rows);
    var le := Comparator(NEWEST);
    forall i, j | 0 <= i < j < |s|
      ensures le(s[i], s[j])
    {
      ComparatorOnPairs(s[i], s[j]);
    }
    ComparatorIsOrder(NEWEST);
    Sorting.SortIsSorted(rows, le);
    SameMembers(rows, s);
    TiesOnKeys(s, NEWEST);
    Sorting.SortedIsUnique(s, Newest(rows), le);
  }

  lemma TiesOnKeys(s: Table, orders: seq<Order>)
    requires Valid(s) && orders in [NEWEST, OLDEST]
    ensures Sorting.TiesAreEqual(s, Comparator(orders))
  {
    var le := Comparator(orders);
    forall i, j | 0 <= i < |s| && 0 <= j < |s| && le(s[i], s[j]) && le(s[j], s[i])
      ensures s[i] == s[j]
    {
      ComparatorOnPairs(s[i], s[j]);
      ComparatorOnPairs(s[j], s[i]);
      LexTotal(s[i].key, s[j].key);
      assert s[i] in s && s[j] in s;
    }
  }

  lemma {:induction false} BelowCounts(rows: Table, key: Key, r: Row)
    requires WellFormed(rows) && |key| == COLUMNS && |r.key| == COLUMNS
    ensures multiset(Below(rows, key))[r] == if LexLess(r.key, key) then multiset(rows)[r] else 0
  {
    if rows != [] {
      BelowCounts(rows[1..], key, r);
      assert rows == [rows[0]] + rows[1..];
    }
  }

  lemma {:induction false} AboveCounts(rows: Table, key: Key, r: Row)
    requires WellFormed(rows) && |key| == COLUMNS && |r.key| == COLUMNS
    ensures multiset(Above(rows, key))[r] == if LexLess(key, r.key) then multiset(rows)[r] else 0
  {
    if rows != [] {
      AboveCounts(rows[1..], key, r);
      assert rows == [rows[0]] + rows[1..];
    }
  }

  lemma {:induction false} BelowMembers(rows: Table, key: Key)
    requires WellFormed(rows) && |key| == COLUMNS
    ensures forall r :: r in Below(rows, key) <==> r in rows && LexLess(r.key, key)
    ensures forall r :: r in Above(rows, key) <==> r in rows && LexLess(key, r.key)
  {
    if rows != [] {
      BelowMembers(rows[1..], key);
      assert rows == [rows[0]] + rows[1..];
    }
  }

  lemma {:induction false} BelowIsValid(rows: Table, key: Key)
    requires Valid(rows) && |key| == COLUMNS
    ensures Valid(Below(rows, key)) && Valid(Above(rows, key))
  {
    BelowMembers(rows, key);
    forall r
      ensures multiset(Below(rows, key))[r] <= 1 && multiset(Above(rows, key))[r] <= 1
    {
      if r in rows {
        BelowCounts(rows, key, r);
        AboveCounts(rows, key, r);
      } else {
        assert r !in multiset(Below(rows, key)) && r !in multiset(Above(rows, key));
      }
    }
  }

  // ---- a walk over a table that changes between requests ----

  ghost predicate HasKey(rows: Table, key: Key) {
    exists r :: r in rows && r.key == key
  }

  /** The first request of a client, or the one that follows a page's `next_cursor`. */
  function Asking(cursor: Option<Cursor>, size: Option<int>): Request {
    Request(NoPage, cursor, None, size)
  }

  /** The request that follows a page's `previous_cursor`. */
  function AskingBack(cursor: Cursor, size: Option<int>): Request {
    Request(NoPage, None, Some(cursor), size)
  }

  function AskingPage(n: int, size: Option<int>): Request {
    Request(Number(n), None, None, size)
  }

  /** The page size these requests get. */
  function SizeOf(size: Option<int>): nat {
    PerPage(Asking(None, size))
  }

  /** The key comes after the cursor in the order of the pages, which is descending. */
  predicate After(cursor: Option<Cursor>, key: Key) {
    |key| == COLUMNS
    && (cursor.Some? ==>
          cursor.value.Encoded? && |cursor.value.values| == COLUMNS && LexLess(key, cursor.value.values))
  }

  /**
   One request per table: the first with `cursor`, each later one with
   the previous page's `next_cursor`, to the end.
   */
  ghost predicate IsWalk(tables: seq<Table>, size: Option<int>, cursor: Option<Cursor>, pages: seq<Page>) {
    && |tables| == |pages| > 0
    && Valid(tables[0])
    && Answer(tables[0], Asking(cursor, size)) == Ok(pages[0]) && pages[0].CursorPage?
    && if |tables| == 1 then pages[0].nextCursor == None
       else pages[0].nextCursor.Some? && IsWalk(tables[1..], size, pages[0].nextCursor, pages[1..])
  }

  /** All rows the walk was given, in the order it was given them. */
  function Collected(pages: seq<Page>): Table {
    if pages == [] then [] else pages[0].items + Collected(pages[1..])
  }

  lemma LaterRows(rows: Table, start: Option<Key>) returns (later: Table)
    requires Valid(rows) && (start.Some? ==> |start.value| == COLUMNS)
    ensures later == Newest(if start.Some? then Below(rows, start.value) else rows)
    ensures Descending(later)
    ensures forall r :: r in later <==> r in rows && (start.Some? ==> LexLess(r.key, start.value))
  {
    if start.Some? {
      BelowIsValid(rows, start.value);
      BelowMembers(rows, start.value);
    }
    var selected := if start.Some? then Below(rows, start.value) else rows;
    NewestDescends(selected);
    later := Newest(selected);
  }

  /** One forward page: a descending prefix of what lies after the cursor, and a cursor at its last row. */
  lemma ForwardPage(rows: Table, size: Option<int>, cursor: Option<Cursor>, page: Page) returns (later: Table)
    requires Valid(rows) && Answer(rows, Asking(cursor, size)) == Ok(page)
    ensures SizeOf(size) > 0 && page.CursorPage?
    ensures Descending(later) && (forall r :: r in later <==> r in rows && After(cursor, r.key))
    ensures page.items == Take(later, SizeOf(size))
    ensures page.nextCursor == if |later| > SizeOf(size) then Some(Encoded(later[SizeOf(size) - 1].key)) else None
  {
    var start := if cursor.Some? then MustDecode(cursor.value) else None;
    later := LaterRows(rows, start);
    CursorOfPrefix(later, SizeOf(size), start.Some?);
  }

  lemma CursorOfPrefix(later: Table, perPage: nat, hasPrevious: bool)
    requires perPage > 0
    ensures var page := CursorResponse(Take(later, perPage), perPage, hasPrevious, |later| > perPage);
            && page.items == Take(later, perPage)
            && page.nextCursor == if |later| > perPage then Some(Encoded(later[perPage - 1].key)) else None
  {
  }

  lemma PrefixDescends(later: Table, perPage: nat, cursor: Option<Cursor>)
    requires Descending(later) && forall r :: r in later ==> After(cursor, r.key)
    ensures Descending(Take(later, perPage))
    ensures forall r :: r in Take(later, perPage) ==> After(cursor, r.key)
  {
    assert forall i :: 0 <= i < |Take(later, perPage)| ==> Take(later, perPage)[i] == later[i] && later[i] in later;
  }

  /** A walk returns strictly descending keys, after where it started. */
  lemma {:induction false} WalkDescends(
    tables: seq<Table>, size: Option<int>, cursor: Option<Cursor>, pages: seq<Page>)
    requires IsWalk(tables, size, cursor, pages)
    ensures Descending(Collected(pages))
    ensures forall r :: r in Collected(pages) ==> After(cursor, r.key)
    decreases |tables|
  {
    var later := ForwardPage(tables[0], size, cursor, pages[0]);
    var items := pages[0].items;
    PrefixDescends(later, SizeOf(size), cursor);
    if |tables| == 1 {
      assert pages[1..] == [];
      assert Collected(pages) == items;
    } else {
      WalkDescends(tables[1..], size, pages[0].nextCursor, pages[1..]);
      CursorSeparates(items, Collected(pages[1..]), cursor, later[SizeOf(size) - 1].key);
    }
  }

  /** A key that stays in the table is met by every walk that starts before it, whatever else comes and goes. */
  lemma {:induction false} WalkCovers(
    tables: seq<Table>, size: Option<int>, cursor: Option<Cursor>, pages: seq<Page>, key: Key)
    requires IsWalk(tables, size, cursor, pages) && After(cursor, key)
    requires forall t :: t in tables ==> HasKey(t, key)
    ensures HasKey(Collected(pages), key)
    decreases |tables|
  {
    var later := ForwardPage(tables[0], size, cursor, pages[0]);
    assert HasKey(later, key) by {
      assert HasKey(tables[0], key);
      var r :| r in tables[0] && r.key == key;
      assert r in later;
    }
    FoundOrLater(later, SizeOf(size), key);
    if HasKey(pages[0].items, key) {
      var r :| r in pages[0].items && r.key == key;
      assert r in Collected(pages);
    } else {
      assert |tables| > 1;
      WalkCovers(tables[1..], size, pages[0].nextCursor, pages[1..], key);
      var r :| r in Collected(pages[1..]) && r.key == key;
      assert r in Collected(pages);
    }
  }

  lemma {:induction false} FoundOrLater(later: Table, perPage: nat, key: Key)
    requires Descending(later) && perPage > 0 && HasKey(later, key)
    ensures HasKey(Take(later, perPage), key) || (|later| > perPage && LexLess(key, later[perPage - 1].key))
  {
    var r :| r in later && r.key == key;
    var p :| 0 <= p < |later| && later[p] == r;
    if p < perPage {
      assert Take(later, perPage)[p] == r;
    }
  }

  lemma CursorSeparates(items: Table, rest: Table, cursor: Option<Cursor>, c: Key)
    requires Descending(items) && Descending(rest) && items != [] && items[|items| - 1].key == c
    requires forall r :: r in rest ==> LexLess(r.key, c)
    requires forall r :: r in items ==> After(cursor, r.key)
    ensures Descending(items + rest)
    ensures forall r :: r in items + rest ==> After(cursor, r.key)
  {
    forall i, r | 0 <= i < |items| && r in rest
      ensures LexLess(r.key, items[i].key)
    {
      if i < |items| - 1 {
        LexTransitive(r.key, c, items[i].key);
      }
    }
    if cursor.Some? {
      forall r | r in rest
        ensures After(cursor, r.key)
      {
        assert items[|items| - 1] in items;
        LexTransitive(r.key, c, cursor.value.values);
      }
    }
  }

  lemma ForwardReadsTable(rows: Table, size: Option<int>, cursor: Option<Cursor>, page: Page, r: Row)
    requires Valid(rows) && Answer(rows, Asking(cursor, size)) == Ok(page) && r in page.items
    ensures r in rows
  {
    var later := ForwardPage(rows, size, cursor, page);
    assert r in later;
  }

  /** Every returned row was in the table its page was read from. */
  lemma {:induction false} CollectedComeFromTables(
    tables: seq<Table>, size: Option<int>, cursor: Option<Cursor>, pages: seq<Page>, r: Row) returns (i: nat)
    requires IsWalk(tables, size, cursor, pages) && r in Collected(pages)
    ensures i < |tables| && r in pages[i].items && r in tables[i]
    decreases |tables|
  {
    if r in pages[0].items {
      ForwardReadsTable(tables[0], size, cursor, pages[0], r);
      i := 0;
    } else {
      assert r in Collected(pages[1..]);
      i := CollectedComeFromTables(tables[1..], size, pages[0].nextCursor, pages[1..], r);
      i := i + 1;
    }
  }

  lemma DescendingKeysDiffer(s: Table, i: nat, j: nat)
    requires Descending(s) && i < j < |s|
    ensures s[i].key != s[j].key
  {
    assert s[i] in s && s[j] in s;
    LexTotal(s[j].key, s[i].key);
  }

  /** A complete walk from the first page returns every key present throughout, at exactly one place. */
  lemma {:induction false} WalkReturnsEachRowOnce(tables: seq<Table>, size: Option<int>, pages: seq<Page>, key: Key)
    requires IsWalk(tables, size, None, pages)
    requires |key| == COLUMNS && forall t :: t in tables ==> HasKey(t, key)
    ensures Descending(Collected(pages))
    ensures exists i :: 0 <= i < |Collected(pages)| && Collected(pages)[i].key == key
              && forall j :: 0 <= j < |Collected(pages)| && Collected(pages)[j].key == key ==> j == i
  {
    WalkDescends(tables, size, None, pages);
    WalkCovers(tables, size, None, pages, key);
    KeyAtOnePlace(Collected(pages), key);
  }

  lemma KeyAtOnePlace(all: Table, key: Key)
    requires Descending(all) && HasKey(all, key)
    ensures exists i :: 0 <= i < |all| && all[i].key == key
              && forall j :: 0 <= j < |all| && all[j].key == key ==> j == i
  {
    var r :| r in all && r.key == key;
    var i :| 0 <= i < |all| && all[i] == r;
    forall j | 0 <= j < |all| && all[j].key == key
      ensures j == i
    {
      if i < j {
        DescendingKeysDiffer(all, i, j);
      } else if j < i {
        DescendingKeysDiffer(all, j, i);
      }
    }
  }

  // ---- the three modes on a table that does not change ----

  lemma SameSetSameMultiset(a: Table, b: Table)
    requires forall r :: multiset(a)[r] <= 1 && multiset(b)[r] <= 1
    requires forall r :: r in a <==> r in b
    ensures multiset(a) == multiset(b)
  {
    forall r
      ensures multiset(a)[r] == multiset(b)[r]
    {
      assert r in multiset(a) <==> r in a;
      assert r in multiset(b) <==> r in b;
    }
  }

  lemma SliceCounts(s: Table, lo: nat, hi: nat, r: Row)
    requires lo <= hi <= |s|
    ensures multiset(s[lo..hi])[r] <= multiset(s)[r]
  {
    assert s[..hi] == s[..lo] + s[lo..hi];
    assert s == s[..hi] + s[hi..];
    assert multiset(s)[r] == multiset(s[..hi])[r] + multiset(s[hi..])[r];
  }

  lemma SliceKeeps(s: Table, lo: nat, hi: nat)
    requires Descending(s) && Valid(s) && lo <= hi <= |s|
    ensures Descending(s[lo..hi]) && Valid(s[lo..hi])
  {
    assert forall r :: r in s[lo..hi] ==> r in s;
    forall r
      ensures multiset(s[lo..hi])[r] <= 1
    {
      SliceCounts(s, lo, hi, r);
    }
  }

  lemma MembersBySide(s: Table, m: nat, r: Row)
    requires Descending(s) && m < |s|
    ensures r in s[m + 1..] <==> r in s && LexLess(r.key, s[m].key)
    ensures r in s[..m] <==> r in s && LexLess(s[m].key, r.key)
  {
    if r in s {
      var i :| 0 <= i < |s| && s[i] == r;
      LexTotal(r.key, s[m].key);
      if i < m {
        assert s[..m][i] == r;
      } else if i > m {
        assert s[m + 1..][i - m - 1] == r;
      }
    }
  }

  /** Cutting at row `m`: the rows after it are those below its key, the rows before it those above. */
  lemma {:induction false} CutAtRow(rows: Table, s: Table, m: nat)
    requires Valid(rows) && Descending(s) && multiset(s) == multiset(rows) && m < |s|
    ensures |s[m].key| == COLUMNS
    ensures multiset(s[m + 1..]) == multiset(Below(rows, s[m].key))
    ensures multiset(s[..m]) == multiset(Above(rows, s[m].key))
    ensures Valid(s[..m]) && Descending(s[m + 1..])
  {
    SameMembers(rows, s);
    assert s[m] in s;
    var key := s[m].key;
    SliceKeeps(s, m + 1, |s|);
    SliceKeeps(s, 0, m);
    assert s[m + 1..|s|] == s[m + 1..] && s[0..m] == s[..m];
    BelowIsValid(rows, key);
    BelowMembers(rows, key);
    forall r
      ensures r in s[m + 1..] <==> r in Below(rows, key)
      ensures r in s[..m] <==> r in Above(rows, key)
    {
      MembersBySide(s, m, r);
    }
    SameSetSameMultiset(s[m + 1..], Below(rows, key));
    SameSetSameMultiset(s[..m], Above(rows, key));
  }

  /** What a forward cursor at row `m` selects is the rest of the table. */
  lemma {:induction false} BelowOfNewest(rows: Table, m: nat)
    requires Valid(rows) && m < |rows|
    ensures |Newest(rows)| == |rows| && |Newest(rows)[m].key| == COLUMNS
    ensures Newest(Below(rows, Newest(rows)[m].key)) == Newest(rows)[m + 1..]
  {
    NewestDescends(rows);
    var s := Newest(rows);
    CutAtRow(rows, s, m);
    BelowIsValid(rows, s[m].key);
    NewestIsUnique(Below(rows, s[m].key), s[m + 1..]);
  }

  lemma {:induction false} ReversedLength<T>(s: seq<T>)
    ensures |Reversed(s)| == |s|
  {
    if s != [] {
      ReversedLength(s[1..]);
    }
  }

  lemma {:induction false} ReversedAt<T>(s: seq<T>, i: nat)
    requires i < |s|
    ensures |Reversed(s)| == |s| && Reversed(s)[i] == s[|s| - 1 - i]
  {
    ReversedLength(s);
    ReversedLength(s[1..]);
    if i < |s| - 1 {
      ReversedAt(s[1..], i);
    }
  }

  lemma {:induction false} ReversedFacts<T>(s: seq<T>)
    ensures |Reversed(s)| == |s|
    ensures forall i :: 0 <= i < |s| ==> Reversed(s)[i] == s[|s| - 1 - i]
    ensures multiset(Reversed(s)) == multiset(s)
  {
    ReversedLength(s);
    forall i | 0 <= i < |s|
      ensures Reversed(s)[i] == s[|s| - 1 - i]
    {
      ReversedAt(s, i);
    }
    if s != [] {
      ReversedFacts(s[1..]);
      assert s == [s[0]] + s[1..];
    }
  }

  /** A descending sequence turned round is the oldest-first arrangement of its rows. */
  lemma {:induction false} OldestIsUnique(rows: Table, s: Table)
    requires Valid(s) && Descending(s) && multiset(s) == multiset(rows)
    ensures Oldest(rows) == Reversed(s)
  {
    var le, turned := Comparator(OLDEST), Reversed(s);
    ReversedFacts(s);
    SameMembers(s, turned);
    forall i, j | 0 <= i < j < |turned|
      ensures le(turned[i], turned[j])
    {
      assert turned[i] == s[|s| - 1 - i] && turned[j] == s[|s| - 1 - j];
      assert turned[i] in s && turned[j] in s;
      ComparatorOnPairs(turned[i], turned[j]);
    }
    ComparatorIsOrder(OLDEST);
    Sorting.SortIsSorted(rows, le);
    Sorting.SortIsPermutation(rows, le);
    TiesOnKeys(turned, OLDEST);
    Sorting.SortedIsUnique(turned, Oldest(rows), le);
  }

  /** What a backward cursor at row `m` selects, oldest first, is the part before it turned round. */
  lemma {:induction false} AboveOfNewest(rows: Table, m: nat)
    requires Valid(rows) && m < |rows|
    ensures |Newest(rows)| == |rows| && |Newest(rows)[m].key| == COLUMNS
    ensures Oldest(Above(rows, Newest(rows)[m].key)) == Reversed(Newest(rows)[..m])
  {
    NewestDescends(rows);
    var s := Newest(rows);
    CutAtRow(rows, s, m);
    SliceKeeps(s, 0, m);
    assert s[0..m] == s[..m];
    OldestIsUnique(Above(rows, s[m].key), s[..m]);
  }

  /** The cursor page that starts at row `m` of the newest-first order. */
  function PageFrom(rows: Table, perPage: nat, m: nat): Page
    requires WellFormed(rows) && perPage > 0 && m <= |Newest(rows)|
  {
    var rest := Newest(rows)[m..];
    CursorResponse(Take(rest, perPage), perPage, m > 0, |rest| > perPage)
  }

  lemma ForwardIsPageFrom(rows: Table, perPage: nat, m: nat)
    requires Valid(rows) && perPage > 0 && (m == 0 || m - 1 < |rows|)
    ensures |Newest(rows)| == |rows|
    ensures m > 0 ==> |Newest(rows)[m - 1].key| == COLUMNS
    ensures Forward(rows, perPage, if m == 0 then None else Some(Newest(rows)[m - 1].key)) == PageFrom(rows, perPage, m)
  {
    NewestLength(rows);
    if m == 0 {
      assert Newest(rows)[0..] == Newest(rows);
    } else {
      BelowOfNewest(rows, m - 1);
    }
  }

  lemma NextCanBeAsked(rows: Table, size: Option<int>, cursor: Option<Cursor>)
    requires Valid(rows) && Answer(rows, Asking(cursor, size)).Ok?
    ensures var page := Answer(rows, Asking(cursor, size)).value;
            page.CursorPage? && Answer(rows, Asking(page.nextCursor, size)).Ok?
  {
    var later := ForwardPage(rows, size, cursor, Answer(rows, Asking(cursor, size)).value);
    assert forall i :: 0 <= i < |later| ==> later[i] in later;
  }

  /** The `k`-th page reached by following `next_cursor` from the first page; the walk stays on its last page. */
  ghost function NthPage(rows: Table, size: Option<int>, k: nat): (page: Page)
    requires Valid(rows)
    ensures page.CursorPage? && Answer(rows, Asking(page.nextCursor, size)).Ok?
  {
    if k == 0 then
      NextCanBeAsked(rows, size, None);
      Answer(rows, Asking(None, size)).value
    else
      var previous := NthPage(rows, size, k - 1);
      if previous.nextCursor == None then previous
      else
        NextCanBeAsked(rows, size, previous.nextCursor);
        Answer(rows, Asking(previous.nextCursor, size)).value
  }

  lemma NthPageStep(rows: Table, size: Option<int>, k: nat)
    requires Valid(rows) && k > 0 && NthPage(rows, size, k - 1).nextCursor.Some?
    ensures Answer(rows, Asking(NthPage(rows, size, k - 1).nextCursor, size)) == Ok(NthPage(rows, size, k))
  {
  }

  lemma SizeIsPositive(size: Option<int>)
    ensures SizeOf(size) > 0
  {
  }

  lemma AnswersAre(rows: Table, size: Option<int>, key: Key)
    requires Valid(rows) && |key| == COLUMNS
    ensures Answer(rows, Asking(None, size)) == Ok(Forward(rows, SizeOf(size), None))
    ensures Answer(rows, Asking(Some(Encoded(key)), size)) == Ok(Forward(rows, SizeOf(size), Some(key)))
    ensures Answer(rows, AskingBack(Encoded(key), size)) == Ok(Backward(rows, SizeOf(size), key))
  {
    hide Offset, Forward, Backward;
  }

  /** The row page `k` starts at, reached page by page. */
  function PageStart(perPage: nat, k: nat): (m: nat)
    ensures k > 0 ==> m >= perPage
  {
    if k == 0 then 0 else PageStart(perPage, k - 1) + perPage
  }

  lemma PageStartStep(perPage: nat, k: nat)
    ensures PageStart(perPage, k) == if k == 0 then 0 else PageStart(perPage, k - 1) + perPage
  {
  }

  lemma {:induction false} PageStartIsProduct(perPage: nat, k: nat)
    ensures PageStart(perPage, k) == k * perPage
  {
    if k > 0 {
      PageStartIsProduct(perPage, k - 1);
    }
  }

  lemma PageAfterPageFrom(rows: Table, size: Option<int>, from: nat, page: Page)
    requires Valid(rows) && from + SizeOf(size) < |rows| == |Newest(rows)|
    requires page == PageFrom(rows, SizeOf(size), from)
    ensures page.nextCursor.Some?
    ensures Answer(rows, Asking(page.nextCursor, size)) == Ok(PageFrom(rows, SizeOf(size), from + SizeOf(size)))
  {
    hide *;
    var perPage := SizeOf(size);
    SizeIsPositive(size);
    NextOfPageFrom(rows, perPage, from);
    AnswersAre(rows, size, Newest(rows)[from + perPage - 1].key);
  }

  lemma {:induction false} FirstPageIsPageFrom(rows: Table, size: Option<int>)
    requires Valid(rows)
    ensures |Newest(rows)| == |rows| && NthPage(rows, size, 0) == PageFrom(rows, SizeOf(size), 0)
  {
    ForwardIsPageFrom(rows, SizeOf(size), 0);
  }

  lemma NthPageAfter(rows: Table, size: Option<int>, k: nat, from: nat)
    requires Valid(rows) && k > 0 && from + SizeOf(size) < |rows| == |Newest(rows)|
    requires NthPage(rows, size, k - 1) == PageFrom(rows, SizeOf(size), from)
    ensures NthPage(rows, size, k) == PageFrom(rows, SizeOf(size), from + SizeOf(size))
  {
    hide *;
    PageAfterPageFrom(rows, size, from, NthPage(rows, size, k - 1));
    NthPageStep(rows, size, k);
  }

  lemma {:induction false} NthPageStarts(rows: Table, size: Option<int>, k: nat)
    requires Valid(rows)
    requires k == 0 || PageStart(SizeOf(size), k) < |rows|
    ensures |Newest(rows)| == |rows|
    ensures NthPage(rows, size, k) == PageFrom(rows, SizeOf(size), PageStart(SizeOf(size), k))
  {
    hide *;
    PageStartStep(SizeOf(size), k);
    if k == 0 {
      FirstPageIsPageFrom(rows, size);
    } else {
      NthPageStarts(rows, size, k - 1);
      NthPageAfter(rows, size, k, PageStart(SizeOf(size), k - 1));
    }
  }

  lemma {:induction false} NthPageIsPageFrom(rows: Table, size: Option<int>, k: nat)
    requires Valid(rows)
    requires k == 0 || k * SizeOf(size) < |rows|
    ensures |Newest(rows)| == |rows|
    ensures NthPage(rows, size, k) == PageFrom(rows, SizeOf(size), k * SizeOf(size))
  {
    PageStartIsProduct(SizeOf(size), k);
    NthPageStarts(rows, size, k);
  }

  lemma NextOfSuffix(all: Table, later: Table, perPage: nat, from: nat)
    requires 0 < perPage && from + perPage < |all| && later == all[from..]
    ensures CursorResponse(Take(later, perPage), perPage, from > 0, |later| > perPage).nextCursor
         == Some(Encoded(all[from + perPage - 1].key))
  {
    CursorOfPrefix(later, perPage, from > 0);
    assert later[perPage - 1] == all[from + perPage - 1];
  }

  lemma NextCursorOfPageFrom(rows: Table, perPage: nat, from: nat)
    requires Valid(rows) && 0 < perPage && from + perPage < |rows|
    ensures |Newest(rows)| == |rows|
    ensures PageFrom(rows, perPage, from).nextCursor == Some(Encoded(Newest(rows)[from + perPage - 1].key))
  {
    NewestLength(rows);
    NextOfSuffix(Newest(rows), Newest(rows)[from..], perPage, from);
  }

  lemma ForwardAfterRow(rows: Table, perPage: nat, m: nat)
    requires Valid(rows) && perPage > 0 && 0 < m <= |rows|
    ensures |Newest(rows)| == |rows| && |Newest(rows)[m - 1].key| == COLUMNS
    ensures Forward(rows, perPage, Some(Newest(rows)[m - 1].key)) == PageFrom(rows, perPage, m)
  {
    ForwardIsPageFrom(rows, perPage, m);
  }

  /** The cursor of a full page leads to the page that starts after it. */
  lemma NextOfPageFrom(rows: Table, perPage: nat, from: nat)
    requires Valid(rows) && 0 < perPage && from + perPage < |rows|
    ensures |Newest(rows)| == |rows| && |Newest(rows)[from + perPage - 1].key| == COLUMNS
    ensures PageFrom(rows, perPage, from).nextCursor == Some(Encoded(Newest(rows)[from + perPage - 1].key))
    ensures Forward(rows, perPage, Some(Newest(rows)[from + perPage - 1].key))
         == PageFrom(rows, perPage, from + perPage)
  {
    NextCursorOfPageFrom(rows, perPage, from);
    ForwardAfterRow(rows, perPage, from + perPage);
  }

  lemma ProductMonotone(a: nat, b: nat, c: nat)
    requires a <= b
    ensures a * c <= b * c
  {
  }

  lemma CeilDivCounts(n: nat, perPage: nat, k: nat)
    requires perPage > 0
    ensures k < CeilDiv(n, perPage) <==> k * perPage < n
  {
    var q := CeilDiv(n, perPage);
    assert q * perPage + (n + perPage - 1) % perPage == n + perPage - 1;
    if k < q {
      ProductMonotone(k + 1, q, perPage);
      assert (k + 1) * perPage == k * perPage + perPage;
    } else {
      ProductMonotone(q, k, perPage);
    }
  }

  lemma OffsetFlags(rows: Table, perPage: nat, k: nat)
    requires perPage > 0
    ensures var page := Offset(rows, perPage, k + 1);
            && (page.currentPage <= page.lastPage <==> k == 0 || k * perPage < |rows|)
            && (page.hasNext <==> (k + 1) * perPage < |rows|)
  {
    CeilDivCounts(|rows|, perPage, k);
    CeilDivCounts(|rows|, perPage, k + 1);
  }

  /** On a fixed table the k-th forward cursor page is offset page k + 1: same rows, same flags. */
  lemma {:induction false} CursorAndOffsetAgree(rows: Table, size: Option<int>, k: nat)
    requires Valid(rows)
    ensures Answer(rows, AskingPage(k + 1, size)).Ok?
    ensures var cursor, offset := NthPage(rows, size, k), Answer(rows, AskingPage(k + 1, size)).value;
            && offset.OffsetPage?
            && (offset.currentPage <= offset.lastPage ==>
                  && cursor.items == offset.items
                  && cursor.hasPrevious == offset.hasPrevious
                  && cursor.hasNext == offset.hasNext)
  {
    hide *;
    SizeIsPositive(size);
    AskingPageIs(rows, size, k + 1);
    OffsetIsPageFrom(rows, SizeOf(size), k);
    if k == 0 || k * SizeOf(size) < |rows| {
      NthPageIsPageFrom(rows, size, k);
    }
  }

  lemma AskingPageIs(rows: Table, size: Option<int>, n: nat)
    requires Valid(rows) && n > 0
    ensures SizeOf(size) > 0 && Answer(rows, AskingPage(n, size)) == Ok(Offset(rows, SizeOf(size), n))
  {
    hide Offset, Forward, Backward;
  }

  lemma {:induction false} OffsetIsPageFrom(rows: Table, perPage: nat, k: nat)
    requires Valid(rows) && perPage > 0
    ensures Offset(rows, perPage, k + 1).OffsetPage? && |Newest(rows)| == |rows|
    ensures var offset := Offset(rows, perPage, k + 1);
            if k == 0 || k * perPage < |rows| then
              && offset.currentPage <= offset.lastPage
              && var page := PageFrom(rows, perPage, k * perPage);
                 page.items == offset.items && page.hasPrevious == offset.hasPrevious && page.hasNext == offset.hasNext
            else offset.currentPage > offset.lastPage
  {
    OffsetFlags(rows, perPage, k);
    NewestLength(rows);
    if k == 0 || k * perPage < |rows| {
      PageFlags(rows, perPage, k);
    }
  }

  lemma PageFlags(rows: Table, perPage: nat, k: nat)
    requires Valid(rows) && perPage > 0
    requires k == 0 || k * perPage < |rows|
    ensures |Newest(rows)| == |rows|
    ensures var page := PageFrom(rows, perPage, k * perPage);
            && page.items == Take(Newest(rows)[k * perPage..], perPage)
            && (page.hasPrevious <==> k > 0)
            && (page.hasNext <==> (k + 1) * perPage < |rows|)
  {
    NewestDescends(rows);
    assert (k + 1) * perPage == k * perPage + perPage;
    if k > 0 {
      ProductMonotone(1, k, perPage);
    }
  }

  lemma {:induction false} LastOfReversed<T>(s: seq<T>, n: nat)
    requires n <= |s|
    ensures Reversed(Take(Reversed(s), n)) == s[|s| - n..]
  {
    var front, back := s[..|s| - n], s[|s| - n..];
    assert s == front + back;
    ReversedConcat(front, back);
    ReversedLength(back);
    assert Take(Reversed(back) + Reversed(front), n) == Reversed(back);
    ReversedTwice(back);
  }

  lemma {:induction false} ReversedConcat<T>(a: seq<T>, b: seq<T>)
    ensures Reversed(a + b) == Reversed(b) + Reversed(a)
  {
    if a == [] {
      assert a + b == b;
    } else {
      ReversedConcat(a[1..], b);
      assert (a + b)[1..] == a[1..] + b;
    }
  }

  lemma {:induction false} ReversedTwice<T>(s: seq<T>)
    ensures Reversed(Reversed(s)) == s
  {
    if s != [] {
      ReversedTwice(s[1..]);
      ReversedConcat(Reversed(s[1..]), [s[0]]);
      assert [s[0]][1..] == [] && Reversed([s[0]]) == [s[0]];
    }
  }

  /** Going back from row `m` of a fixed table gives the `perPage` rows before it. */
  lemma BackwardFrom(rows: Table, perPage: nat, m: nat)
    requires Valid(rows) && 0 < perPage <= m < |rows|
    ensures |Newest(rows)| == |rows| && |Newest(rows)[m].key| == COLUMNS
    ensures Backward(rows, perPage, Newest(rows)[m].key)
         == CursorResponse(Newest(rows)[m - perPage..m], perPage, m > perPage, true)
  {
    AboveOfNewest(rows, m);
    var front := Newest(rows)[..m];
    ReversedLength(front);
    LastOfReversed(front, perPage);
    assert front[m - perPage..] == Newest(rows)[m - perPage..m];
  }

  lemma ResponseFrom(s: Table, perPage: nat, m: nat)
    requires 0 < perPage <= m < |s|
    ensures CursorResponse(Take(s[m..], perPage), perPage, true, |s[m..]| > perPage).previousCursor
         == Some(Encoded(s[m].key))
    ensures Take(s[m - perPage..], perPage) == s[m - perPage..m]
    ensures CursorResponse(s[m - perPage..m], perPage, m > perPage, true).hasNext
  {
    assert Take(s[m..], perPage)[0] == s[m];
  }

  lemma PageFromIs(rows: Table, perPage: nat, m: nat)
    requires Valid(rows) && 0 < perPage <= m < |rows| == |Newest(rows)|
    ensures PageFrom(rows, perPage, m).previousCursor == Some(Encoded(Newest(rows)[m].key))
    ensures PageFrom(rows, perPage, m - perPage)
         == CursorResponse(Newest(rows)[m - perPage..m], perPage, m > perPage, true)
    ensures PageFrom(rows, perPage, m - perPage).hasNext
  {
    ResponseFrom(Newest(rows), perPage, m);
  }

  lemma BackToPage(rows: Table, perPage: nat, m: nat)
    requires Valid(rows) && 0 < perPage <= m < |rows|
    ensures |Newest(rows)| == |rows|
    ensures PageFrom(rows, perPage, m).previousCursor == Some(Encoded(Newest(rows)[m].key))
    ensures PageFrom(rows, perPage, m - perPage).hasNext
    ensures |Newest(rows)[m].key| == COLUMNS
    ensures Backward(rows, perPage, Newest(rows)[m].key) == PageFrom(rows, perPage, m - perPage)
  {
    hide *;
    BackwardFrom(rows, perPage, m);
    PageFromIs(rows, perPage, m);
  }

  /** Asking for the page's `previous_cursor` gives the page `before`. */
  ghost predicate PreviousLeadsTo(rows: Table, size: Option<int>, page: Page, before: Page)
    requires WellFormed(rows)
  {
    && page.CursorPage? && page.previousCursor.Some?
    && Answer(rows, AskingBack(page.previousCursor.value, size)) == Ok(before)
  }

  lemma PreviousOfPageFrom(rows: Table, size: Option<int>, m: nat, page: Page, before: Page)
    requires Valid(rows) && SizeOf(size) <= m < |rows| == |Newest(rows)|
    requires page == PageFrom(rows, SizeOf(size), m) && before == PageFrom(rows, SizeOf(size), m - SizeOf(size))
    ensures before.hasNext && PreviousLeadsTo(rows, size, page, before)
  {
    BackToPage(rows, SizeOf(size), m);
    AnswersAre(rows, size, Newest(rows)[m].key);
  }

  lemma ProductStep(k: nat, perPage: nat)
    ensures (k + 1) * perPage == k * perPage + perPage
    ensures (k + 1) * perPage >= perPage
  {
    ProductMonotone(1, k + 1, perPage);
  }

  /** On a fixed table `previous_cursor` undoes `next_cursor`: the same page, down to its cursors and flags. */
  lemma BackwardUndoesForward(rows: Table, size: Option<int>, k: nat)
    requires Valid(rows) && (k + 1) * SizeOf(size) < |rows|
    ensures NthPage(rows, size, k).hasNext
    ensures PreviousLeadsTo(rows, size, NthPage(rows, size, k + 1), NthPage(rows, size, k))
  {
    hide *;
    var perPage := SizeOf(size);
    SizeIsPositive(size);
    ProductStep(k, perPage);
    NthPageIsPageFrom(rows, size, k);
    NthPageIsPageFrom(rows, size, k + 1);
    PreviousOfPageFrom(rows, size, (k + 1) * perPage, NthPage(rows, size, k + 1), NthPage(rows, size, k));
  }

  // ---- a walk backward over a table that changes between requests ----

  function Last<T>(s: seq<T>, n: nat): seq<T> {
    if n <= |s| then s[|s| - n..] else s
  }

  /** The key comes before the cursor in the order of the pages. */
  predicate Before(cursor: Cursor, key: Key) {
    |key| == COLUMNS && cursor.Encoded? && |cursor.values| == COLUMNS && LexLess(cursor.values, key)
  }

  /**
   One request per table: the first with `cursor`, each later one with
   the previous page's `previous_cursor`, to the first page.
   */
  ghost predicate IsBackWalk(tables: seq<Table>, size: Option<int>, cursor: Cursor, pages: seq<Page>) {
    && |tables| == |pages| > 0
    && Valid(tables[0])
    && Answer(tables[0], AskingBack(cursor, size)) == Ok(pages[0]) && pages[0].CursorPage?
    && if |tables| == 1 then pages[0].previousCursor == None
       else
         && pages[0].previousCursor.Some?
         && IsBackWalk(tables[1..], size, pages[0].previousCursor.value, pages[1..])
  }

  /** All rows a backward walk was given, as the pages follow each other: the last one it reached first. */
  function CollectedBack(pages: seq<Page>): Table {
    if pages == [] then [] else CollectedBack(pages[1..]) + pages[0].items
  }

  lemma EarlierRows(rows: Table, start: Key) returns (earlier: Table)
    requires Valid(rows) && |start| == COLUMNS
    ensures Descending(earlier) && Oldest(Above(rows, start)) == Reversed(earlier)
    ensures forall r :: r in earlier <==> r in rows && LexLess(start, r.key)
  {
    BelowIsValid(rows, start);
    BelowMembers(rows, start);
    NewestDescends(Above(rows, start));
    earlier := Newest(Above(rows, start));
    OldestIsUnique(Above(rows, start), earlier);
  }

  lemma {:induction false} TurnedRound<T>(s: seq<T>, n: nat)
    ensures Reversed(Take(Reversed(s), n)) == Last(s, n) && |Reversed(s)| == |s|
  {
    ReversedLength(s);
    if n <= |s| {
      LastOfReversed(s, n);
    } else {
      ReversedTwice(s);
    }
  }

  /** One backward page: the end of what lies before the cursor, and a cursor at its first row. */
  lemma BackwardPage(rows: Table, size: Option<int>, cursor: Cursor, page: Page) returns (earlier: Table)
    requires Valid(rows) && Answer(rows, AskingBack(cursor, size)) == Ok(page)
    ensures SizeOf(size) > 0 && page.CursorPage?
    ensures Descending(earlier) && (forall r :: r in earlier <==> r in rows && Before(cursor, r.key))
    ensures page.items == Last(earlier, SizeOf(size))
    ensures page.previousCursor
         == if |earlier| > SizeOf(size) then Some(Encoded(earlier[|earlier| - SizeOf(size)].key)) else None
  {
    earlier := EarlierRows(rows, cursor.values);
    TurnedRound(earlier, SizeOf(size));
  }

  lemma {:induction false} SuffixDescends(earlier: Table, perPage: nat, cursor: Cursor)
    requires Descending(earlier) && forall r :: r in earlier ==> Before(cursor, r.key)
    ensures Descending(Last(earlier, perPage))
    ensures forall r :: r in Last(earlier, perPage) ==> Before(cursor, r.key)
  {
    var from := if perPage <= |earlier| then |earlier| - perPage else 0;
    assert Last(earlier, perPage) == earlier[from..];
    assert forall i :: 0 <= i < |earlier| - from ==>
             earlier[from..][i] == earlier[from + i] && earlier[from + i] in earlier;
  }

  /** Rows above the first of the items, put before them. */
  lemma CursorSeparatesBack(rest: Table, items: Table, cursor: Cursor, c: Key)
    requires Descending(items) && Descending(rest) && items != [] && items[0].key == c
    requires forall r :: r in rest ==> LexLess(c, r.key)
    requires forall r :: r in items ==> Before(cursor, r.key)
    ensures Descending(rest + items)
    ensures forall r :: r in rest + items ==> Before(cursor, r.key)
  {
    forall i, r | 0 <= i < |items| && r in rest
      ensures LexLess(items[i].key, r.key)
    {
      if i > 0 {
        LexTransitive(items[i].key, c, r.key);
      }
    }
    assert items[0] in items;
    forall r | r in rest
      ensures Before(cursor, r.key)
    {
      LexTransitive(cursor.values, c, r.key);
    }
  }

  /** A backward walk returns ever larger keys, before where it started: put together, the pages strictly descend. */
  lemma {:induction false} BackWalkAscends(tables: seq<Table>, size: Option<int>, cursor: Cursor, pages: seq<Page>)
    requires IsBackWalk(tables, size, cursor, pages)
    ensures Descending(CollectedBack(pages))
    ensures forall r :: r in CollectedBack(pages) ==> Before(cursor, r.key)
    decreases |tables|
  {
    var earlier := BackwardPage(tables[0], size, cursor, pages[0]);
    var items := pages[0].items;
    SuffixDescends(earlier, SizeOf(size), cursor);
    if |tables| == 1 {
      assert pages[1..] == [] && CollectedBack(pages[1..]) == [];
      assert CollectedBack(pages) == items;
    } else {
      BackWalkAscends(tables[1..], size, pages[0].previousCursor.value, pages[1..]);
      CursorSeparatesBack(CollectedBack(pages[1..]), items, cursor, earlier[|earlier| - SizeOf(size)].key);
    }
  }

  lemma {:induction false} FoundOrEarlier(earlier: Table, perPage: nat, key: Key)
    requires Descending(earlier) && perPage > 0 && HasKey(earlier, key)
    ensures HasKey(Last(earlier, perPage), key)
            || (|earlier| > perPage && LexLess(earlier[|earlier| - perPage].key, key))
  {
    var r :| r in earlier && r.key == key;
    var p :| 0 <= p < |earlier| && earlier[p] == r;
    if perPage <= |earlier| && p >= |earlier| - perPage {
      assert Last(earlier, perPage)[p - (|earlier| - perPage)] == r;
    }
  }

  /** A key that stays in the table is met by every backward walk that starts after it. */
  lemma {:induction false} BackWalkCovers(
    tables: seq<Table>, size: Option<int>, cursor: Cursor, pages: seq<Page>, key: Key)
    requires IsBackWalk(tables, size, cursor, pages) && Before(cursor, key)
    requires forall t :: t in tables ==> HasKey(t, key)
    ensures HasKey(CollectedBack(pages), key)
    decreases |tables|
  {
    var earlier := BackwardPage(tables[0], size, cursor, pages[0]);
    assert HasKey(earlier, key) by {
      assert HasKey(tables[0], key);
      var r :| r in tables[0] && r.key == key;
      assert r in earlier;
    }
    FoundOrEarlier(earlier, SizeOf(size), key);
    if HasKey(pages[0].items, key) {
      var r :| r in pages[0].items && r.key == key;
      assert r in CollectedBack(pages);
    } else {
      assert |tables| > 1;
      BackWalkCovers(tables[1..], size, pages[0].previousCursor.value, pages[1..], key);
      var r :| r in CollectedBack(pages[1..]) && r.key == key;
      assert r in CollectedBack(pages);
    }
  }

  /**
   A backward walk to the first page returns every key before its start
   that is present throughout, at exactly one place.
   */
  lemma {:induction false} BackWalkReturnsEachRowOnce(
    tables: seq<Table>, size: Option<int>, cursor: Cursor, pages: seq<Page>, key: Key)
    requires IsBackWalk(tables, size, cursor, pages)
    requires Before(cursor, key) && forall t :: t in tables ==> HasKey(t, key)
    ensures Descending(CollectedBack(pages))
    ensures exists i :: 0 <= i < |CollectedBack(pages)| && CollectedBack(pages)[i].key == key
              && forall j :: 0 <= j < |CollectedBack(pages)| && CollectedBack(pages)[j].key == key ==> j == i
  {
    BackWalkAscends(tables, size, cursor, pages);
    BackWalkCovers(tables, size, cursor, pages, key);
    KeyAtOnePlace(CollectedBack(pages), key);
  }

  // ---- what a single request is answered ----

  /** Fifty rows when no number is asked for, else the number, but never fewer than one or more than two hundred. */
  lemma PageSizeIs(request: Request)
    ensures PerPage(request) == SizeOf(request.perPage)
    ensures request.perPage.None? ==> PerPage(request) == 50
    ensures request.perPage.Some? ==>
              var n := request.perPage.value;
              && (n < 1 ==> PerPage(request) == 1)
              && (1 <= n <= 200 ==> PerPage(request) == n)
              && (200 < n ==> PerPage(request) == 200)
  {
  }

  /** A list of two values. */
  predicate IsKey(cursor: Cursor) {
    cursor.Encoded? && |cursor.values| == 2
  }

  /** Every refusal but the one for several modes, with its reason; a request refused for none is answered. */
  lemma RefusedExactlyWhen(rows: Table, request: Request)
    requires WellFormed(rows)
    ensures Answer(rows, request) == Err(InvalidPage) <==>
              && request.cursor.None? && request.previousCursor.None?
              && request.page != NoPage && !(request.page.Number? && request.page.n >= 1)
    ensures Answer(rows, request) == Err(InvalidPreviousCursor) <==>
              request.page == NoPage && request.previousCursor.Some? && !IsKey(request.previousCursor.value)
    ensures Answer(rows, request) == Err(InvalidCursor) <==>
              && request.page == NoPage && request.previousCursor.None?
              && request.cursor.Some? && !IsKey(request.cursor.value)
  {
  }

  /** A row after the cursor that is not among the items. */
  ghost predicate MoreAfter(rows: Table, cursor: Option<Cursor>, items: Table) {
    exists r :: r in rows && After(cursor, r.key) && r !in items
  }

  /** The items are the first `n` of the rows after the cursor, and all of them if there are fewer. */
  ghost predicate FirstAfter(rows: Table, cursor: Option<Cursor>, n: nat, items: Table) {
    && Descending(items) && |items| <= n
    && (forall r :: r in items ==> r in rows && After(cursor, r.key))
    && (forall r :: r in rows && After(cursor, r.key) && r !in items ==>
          |items| == n && forall i :: 0 <= i < n ==> LexLess(r.key, items[i].key))
  }

  lemma PrefixComesFirst(later: Table, n: nat, r: Row)
    requires Descending(later) && r in later
    ensures r in Take(later, n)
            || (&& n < |later| && |Take(later, n)| == n
                && forall i :: 0 <= i < n ==> LexLess(r.key, Take(later, n)[i].key))
  {
    var p :| 0 <= p < |later| && later[p] == r;
    if p < n {
      assert Take(later, n)[p] == r;
    }
  }

  lemma FirstAfterIsPrefix(rows: Table, cursor: Option<Cursor>, n: nat, later: Table)
    requires Descending(later) && n > 0 && forall r :: r in later <==> r in rows && After(cursor, r.key)
    ensures FirstAfter(rows, cursor, n, Take(later, n))
    ensures MoreAfter(rows, cursor, Take(later, n)) <==> |later| > n
  {
    PrefixDescends(later, n, cursor);
    var items := Take(later, n);
    assert forall r :: r in items ==> r in later;
    forall r | r in rows && After(cursor, r.key) && r !in items
      ensures n < |later| && |items| == n && forall i :: 0 <= i < n ==> LexLess(r.key, items[i].key)
    {
      PrefixComesFirst(later, n, r);
    }
    if |later| > n {
      forall i | 0 <= i < n
        ensures items[i] != later[n]
      {
        DescendingKeysDiffer(later, i, n);
      }
      assert later[n] in later && later[n] !in items;
    }
  }

  /**
   A request without page and `previous_cursor`: the first rows after its cursor, or of all, with
   a cursor to the next page exactly when more rows follow, and one to the previous page exactly
   when it came with a cursor and got rows.
   */
  lemma ForwardAnswerIs(rows: Table, request: Request)
    requires Valid(rows) && request.page == NoPage && request.previousCursor.None? && Answer(rows, request).Ok?
    ensures var page := Answer(rows, request).value;
            && page.CursorPage? && page.perPage == SizeOf(request.perPage)
            && FirstAfter(rows, request.cursor, SizeOf(request.perPage), page.items)
            && (MoreAfter(rows, request.cursor, page.items) ==> page.items != [])
            && page.nextCursor
               == (if MoreAfter(rows, request.cursor, page.items) then Some(Encoded(page.items[|page.items| - 1].key))
                   else None)
            && page.previousCursor
               == (if request.cursor.Some? && page.items != [] then Some(Encoded(page.items[0].key)) else None)
            && (page.hasNext <==> page.nextCursor.Some?) && (page.hasPrevious <==> page.previousCursor.Some?)
  {
    var page := Answer(rows, request).value;
    assert request == Asking(request.cursor, request.perPage);
    var later := ForwardPage(rows, request.perPage, request.cursor, page);
    FirstAfterIsPrefix(rows, request.cursor, SizeOf(request.perPage), later);
  }

  ghost predicate MoreBefore(rows: Table, cursor: Cursor, items: Table) {
    exists r :: r in rows && Before(cursor, r.key) && r !in items
  }

  /** The items are the last `n` of the rows before the cursor, and all of them if there are fewer. */
  ghost predicate LastBefore(rows: Table, cursor: Cursor, n: nat, items: Table) {
    && Descending(items) && |items| <= n
    && (forall r :: r in items ==> r in rows && Before(cursor, r.key))
    && (forall r :: r in rows && Before(cursor, r.key) && r !in items ==>
          |items| == n && forall i :: 0 <= i < n ==> LexLess(items[i].key, r.key))
  }

  lemma SuffixComesLast(earlier: Table, n: nat, r: Row)
    requires Descending(earlier) && r in earlier
    ensures r in Last(earlier, n)
            || (&& n < |earlier| && |Last(earlier, n)| == n
                && forall i :: 0 <= i < n ==> LexLess(Last(earlier, n)[i].key, r.key))
  {
    var p :| 0 <= p < |earlier| && earlier[p] == r;
    if n <= |earlier| && p >= |earlier| - n {
      assert Last(earlier, n)[p - (|earlier| - n)] == r;
    }
  }

  lemma LastBeforeIsSuffix(rows: Table, cursor: Cursor, n: nat, earlier: Table)
    requires Descending(earlier) && n > 0 && forall r :: r in earlier <==> r in rows && Before(cursor, r.key)
    ensures LastBefore(rows, cursor, n, Last(earlier, n))
    ensures MoreBefore(rows, cursor, Last(earlier, n)) <==> |earlier| > n
  {
    SuffixDescends(earlier, n, cursor);
    var items := Last(earlier, n);
    assert forall r :: r in items ==> r in earlier;
    forall r | r in rows && Before(cursor, r.key) && r !in items
      ensures n < |earlier| && |items| == n && forall i :: 0 <= i < n ==> LexLess(items[i].key, r.key)
    {
      SuffixComesLast(earlier, n, r);
    }
    if |earlier| > n {
      forall i | 0 <= i < n
        ensures items[i] != earlier[0]
      {
        DescendingKeysDiffer(earlier, 0, |earlier| - n + i);
      }
      assert earlier[0] in earlier && earlier[0] !in items;
    }
  }

  /**
   A request with `previous_cursor` and no page: the rows just before it, in the same descending
   order, with a cursor to the previous page exactly when more rows come earlier, and one to the
   next page whenever it got rows.
   */
  lemma BackwardAnswerIs(rows: Table, request: Request)
    requires Valid(rows) && request.page == NoPage && request.previousCursor.Some? && Answer(rows, request).Ok?
    ensures var page, cursor := Answer(rows, request).value, request.previousCursor.value;
            && page.CursorPage? && page.perPage == SizeOf(request.perPage)
            && LastBefore(rows, cursor, SizeOf(request.perPage), page.items)
            && (MoreBefore(rows, cursor, page.items) ==> page.items != [])
            && page.previousCursor
               == (if MoreBefore(rows, cursor, page.items) then Some(Encoded(page.items[0].key)) else None)
            && page.nextCursor
               == (if page.items != [] then Some(Encoded(page.items[|page.items| - 1].key)) else None)
            && (page.hasNext <==> page.nextCursor.Some?) && (page.hasPrevious <==> page.previousCursor.Some?)
  {
    var page, cursor := Answer(rows, request).value, request.previousCursor.value;
    assert Answer(rows, request) == Answer(rows, AskingBack(cursor, request.perPage));
    var earlier := BackwardPage(rows, request.perPage, cursor, page);
    LastBeforeIsSuffix(rows, cursor, SizeOf(request.perPage), earlier);
  }

  /** Where row or page `n` starts in a table of `total` rows. */
  function StartOf(n: nat, size: nat, total: nat): nat {
    if n * size <= total then n * size else total
  }

  /** The rows from position (n - 1) * size to n * size, as far as there are any. */
  function RowsOfPage(s: Table, size: nat, n: nat): Table
    requires n > 0
  {
    assert n * size == (n - 1) * size + size;
    s[StartOf(n - 1, size, |s|)..StartOf(n, size, |s|)]
  }

  lemma CeilDivIsLeast(total: nat, size: nat)
    requires size > 0
    ensures var last := Max(CeilDiv(total, size), 1);
            last >= 1 && total <= last * size && (last > 1 ==> (last - 1) * size < total)
  {
    var last := Max(CeilDiv(total, size), 1);
    CeilDivCounts(total, size, last);
    if last > 1 {
      CeilDivCounts(total, size, last - 1);
    }
  }

  /**
   A request for page `n`: of the rows in descending order, those from position (n - 1) * size
   to n * size, as far as there are any, counted against the least number of pages that hold all.
   */
  lemma {:induction false} PageAnswerIs(rows: Table, request: Request, s: Table)
    requires Valid(rows) && Descending(s) && multiset(s) == multiset(rows)
    requires request.page.Number? && request.page.n >= 1 && request.cursor.None? && request.previousCursor.None?
    ensures Answer(rows, request).Ok? && |s| == |rows|
    ensures var n, size, page := request.page.n, SizeOf(request.perPage), Answer(rows, request).value;
            && page.OffsetPage? && page.perPage == size
            && page.items == RowsOfPage(s, size, n)
            && (page.hasPrevious <==> n > 1) && (page.hasNext <==> n * size < |rows|)
            && page.total == |rows| && page.currentPage == n
            && page.lastPage >= 1 && |rows| <= page.lastPage * size
            && (page.lastPage > 1 ==> (page.lastPage - 1) * size < |rows|)
  {
    hide *;
    var n, size := request.page.n, SizeOf(request.perPage);
    SameMembers(s, rows);
    NewestIsUnique(rows, s);
    SizeIsPositive(request.perPage);
    OnlyPageAsked(request);
    AskingPageIs(rows, request.perPage, n);
    OffsetPageIs(rows, size, n, s);
  }

  lemma OnlyPageAsked(request: Request)
    requires request.page.Number? && request.cursor.None? && request.previousCursor.None?
    ensures request == AskingPage(request.page.n, request.perPage)
  {
  }

  lemma {:induction false} OffsetPageIs(rows: Table, size: nat, n: nat, s: Table)
    requires size > 0 && n > 0 && s == Newest(rows) && |s| == |rows|
    ensures var page := Offset(rows, size, n);
            && page.OffsetPage? && page.perPage == size
            && page.items == RowsOfPage(s, size, n)
            && (page.hasPrevious <==> n > 1) && (page.hasNext <==> n * size < |rows|)
            && page.total == |rows| && page.currentPage == n
            && page.lastPage >= 1 && |rows| <= page.lastPage * size
            && (page.lastPage > 1 ==> (page.lastPage - 1) * size < |rows|)
  {
    OffsetFlags(rows, size, n - 1);
    CeilDivIsLeast(|rows|, size);
    SliceOfPage(s, size, n);
  }

  lemma SliceOfPage(s: Table, size: nat, n: nat)
    requires size > 0 && n > 0
    ensures var from := (n - 1) * size;
            Take(s[if from <= |s| then from else |s|..], size) == RowsOfPage(s, size, n)
  {
    assert n * size == (n - 1) * size + size;
  }

  // ---- requests that name more than one mode ----

  function ModesNamed(request: Request): nat {
    (if request.page != NoPage then 1 else 0)
    + (if request.cursor.Some? then 1 else 0)
    + (if request.previousCursor.Some? then 1 else 0)
  }

  /**
   Modes are meant to be mutually exclusive. Of the requests that name more than one, exactly
   those that name `page` are refused; no other request is refused for that reason.
   */
  lemma ExclusionIsEnforcedExactlyFor(rows: Table, request: Request)
    requires WellFormed(rows)
    ensures Answer(rows, request) == Err(MutuallyExclusive) <==> ModesNamed(request) > 1 && request.page != NoPage
  {
  }

  /**
   Both cursors without a page are accepted, and then one is silently preferred: `cursor`
   influences an answer exactly when `previous_cursor` is absent.
   */
  lemma CursorMattersExactlyWhen(rows: Table, request: Request)
    requires WellFormed(rows)
    ensures (exists a, b :: Answer(rows, request.(cursor := a)) != Answer(rows, request.(cursor := b)))
       <==> request.previousCursor.None?
  {
    var absent, garbled := request.(cursor := None), request.(cursor := Some(Garbled));
    if request.previousCursor.None? {
      assert Answer(rows, garbled).Err?;
      assert Answer(rows, absent) != Answer(rows, garbled);
    } else {
      forall a
        ensures Answer(rows, request.(cursor := a)) == Answer(rows, absent)
      {
      }
    }
  }
}
