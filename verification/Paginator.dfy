/**
 Cursor and offset pagination over a query (`HybridPaginator`). A row is the
 values of its cursor columns and a body; a table is what the base query
 selects at the moment of one request.
 */
module Paginator {
  import opened Common
  import Sorting

  type Key = seq<int>

  datatype Row = Row(key: Key, body: int)

  type Table = seq<Row>

  /** The paginator is used with two cursor columns. */
  const COLUMNS: nat := 2

  // ---- the order the cursors rely on, for any number of columns ----

  predicate LexLess(a: Key, b: Key)
    requires |a| == |b|
  {
    a != [] && (a[0] < b[0] || (a[0] == b[0] && LexLess(a[1..], b[1..])))
  }

  lemma {:induction false} LexTotal(a: Key, b: Key)
    requires |a| == |b|
    ensures LexLess(a, b) || LexLess(b, a) || a == b
    ensures !(LexLess(a, b) && LexLess(b, a))
    ensures !LexLess(a, a)
  {
    if a != [] {
      LexTotal(a[1..], b[1..]);
      assert a == [a[0]] + a[1..] && b == [b[0]] + b[1..];
    }
  }

  lemma {:induction false} LexTransitive(a: Key, b: Key, c: Key)
    requires |a| == |b| == |c|
    requires LexLess(a, b) && LexLess(b, c)
    ensures LexLess(a, c)
  {
    if a[0] == b[0] == c[0] {
      LexTransitive(a[1..], b[1..], c[1..]);
    }
  }

  // ---- the query builder's conditions ----

  datatype Operator = Equal | Less | Greater

  datatype Condition = Condition(column: nat, op: Operator, value: int)

  /** Conditions joined by AND. */
  type Group = seq<Condition>

  /** Groups joined by OR. */
  type Filter = seq<Group>

  function At(key: Key, column: nat): int {
    if column < |key| then key[column] else 0
  }

  predicate Holds(c: Condition, key: Key) {
    match c.op
    case Equal => At(key, c.column) == c.value
    case Less => At(key, c.column) < c.value
    case Greater => At(key, c.column) > c.value
  }

  predicate GroupHolds(g: Group, key: Key) {
    forall i :: 0 <= i < |g| ==> Holds(g[i], key)
  }

  predicate FilterHolds(f: Filter, key: Key) {
    exists i :: 0 <= i < |f| && GroupHolds(f[i], key)
  }

  /** Rows that pass every filter, in table order. */
  function Selected(rows: Table, filters: seq<Filter>): Table {
    if rows == [] then []
    else
      (if forall f :: f in filters ==> FilterHolds(f, rows[0].key) then [rows[0]] else [])
      + Selected(rows[1..], filters)
  }

  datatype Order = Order(column: nat, descending: bool)

  predicate Precedes(orders: seq<Order>, a: Key, b: Key) {
    if orders == [] then true
    else
      var x, y := At(a, orders[0].column), At(b, orders[0].column);
      if x == y then Precedes(orders[1..], a, b) else if orders[0].descending then x > y else x < y
  }

  function Comparator(orders: seq<Order>): (Row, Row) -> bool {
    (a: Row, b: Row) => Precedes(orders, a.key, b.key)
  }

  function Take<T>(s: seq<T>, n: nat): seq<T> {
    if n <= |s| then s[..n] else s
  }

  /** An Eloquent query under construction; `rows` is what its base conditions select. */
  class Builder {
    const rows: Table
    var filters: seq<Filter>
    var orders: seq<Order>

    constructor (rows: Table)
      ensures this.rows == rows && filters == [] && orders == []
    {
      this.rows := rows;
      filters, orders := [], [];
    }

    method Clone() returns (copy: Builder)
      ensures fresh(copy) && copy.rows == rows && copy.filters == filters && copy.orders == orders
    {
      copy := new Builder(rows);
      copy.filters, copy.orders := filters, orders;
    }

    method Where(f: Filter)
      modifies this
      ensures filters == old(filters) + [f] && orders == old(orders)
    {
      filters := filters + [f];
    }

    method OrderBy(column: nat, descending: bool)
      modifies this
      ensures orders == old(orders) + [Order(column, descending)] && filters == old(filters)
    {
      orders := orders + [Order(column, descending)];
    }

    function Result(): Table
      reads this
    {
      Sorting.SortBy(Selected(rows, filters), Comparator(orders))
    }

    method Get(offset: nat, limit: nat) returns (found: Table)
      ensures found == Take(Result()[if offset <= |Result()| then offset else |Result()|..], limit)
    {
      var all := Result();
      found := Take(all[if offset <= |all| then offset else |all|..], limit);
    }
  }

  // ---- the OR of prefix equalities ----

  /** Group `i`: equal to the key in the columns before `i`, strictly past it in column `i`. */
  function PrefixGroup(key: Key, i: nat, op: Operator): Group
    requires i < |key|
  {
    seq(i, j requires 0 <= j < i => Condition(j, Equal, key[j])) + [Condition(i, op, key[i])]
  }

  function PrefixFilter(key: Key, op: Operator): Filter {
    seq(|key|, i requires 0 <= i < |key| => PrefixGroup(key, i, op))
  }

  method ApplyPast(query: Builder, columns: nat, key: Key, op: Operator)
    requires |key| == columns
    modifies query
    ensures query.filters == old(query.filters) + [PrefixFilter(key, op)]
    ensures query.orders == old(query.orders)
  {
    var q: Filter := [];
    var i := 0;
    while i < columns
      invariant 0 <= i <= columns
      invariant q == PrefixFilter(key, op)[..i]
      modifies {}
    {
      var qq: Group := [];
      var j := 0;
      while j < i
        invariant 0 <= j <= i
        invariant qq == PrefixGroup(key, i, op)[..j]
        modifies {}
      {
        qq := qq + [Condition(j, Equal, key[j])];
        j := j + 1;
      }
      qq := qq + [Condition(i, op, key[i])];
      assert qq == PrefixGroup(key, i, op);
      q := q + [qq];
      i := i + 1;
    }
    assert q == PrefixFilter(key, op);
    query.Where(q);
  }

  /** Rows strictly before the key in descending order. */
  method ApplyBefore(query: Builder, columns: nat, key: Key)
    requires |key| == columns
    modifies query
    ensures query.filters == old(query.filters) + [PrefixFilter(key, Less)]
    ensures query.orders == old(query.orders)
  {
    ApplyPast(query, columns, key, Less);
  }

  /** Rows strictly after the key in descending order. */
  method ApplyAfter(query: Builder, columns: nat, key: Key)
    requires |key| == columns
    modifies query
    ensures query.filters == old(query.filters) + [PrefixFilter(key, Greater)]
    ensures query.orders == old(query.orders)
  {
    ApplyPast(query, columns, key, Greater);
  }

  /** `a` and `b` agree before column `i` and are related by `op` in column `i`. */
  predicate PastAt(a: Key, b: Key, i: nat, op: Operator)
    requires |a| == |b|
  {
    i < |a| && a[..i] == b[..i] && Holds(Condition(i, op, b[i]), a)
  }

  lemma GroupMeansPastAt(a: Key, key: Key, i: nat, op: Operator)
    requires |a| == |key| && i < |key|
    ensures GroupHolds(PrefixGroup(key, i, op), a) <==> PastAt(a, key, i, op)
  {
    var g := PrefixGroup(key, i, op);
    assert forall j :: 0 <= j < i ==> g[j] == Condition(j, Equal, key[j]);
    assert g[i] == Condition(i, op, key[i]);
    if GroupHolds(g, a) {
      forall j | 0 <= j < i
        ensures a[j] == key[j]
      {
        assert Holds(g[j], a);
      }
      assert Holds(g[i], a);
    }
    if PastAt(a, key, i, op) {
      forall j | 0 <= j < |g|
        ensures Holds(g[j], a)
      {
        assert j < i ==> a[..i][j] == key[..i][j];
      }
    }
  }

  ghost predicate PastSomewhere(a: Key, b: Key, op: Operator)
    requires |a| == |b|
  {
    exists i: nat :: PastAt(a, b, i, op)
  }

  lemma {:induction false} LexLessIffPastSomewhere(a: Key, b: Key)
    requires |a| == |b|
    ensures LexLess(a, b) <==> PastSomewhere(a, b, Less)
    ensures LexLess(b, a) <==> PastSomewhere(a, b, Greater)
  {
    if a != [] {
      LexLessIffPastSomewhere(a[1..], b[1..]);
      PastHeadOrTail(a, b, Less);
      PastHeadOrTail(a, b, Greater);
    }
  }

  lemma PastHeadOrTail(a: Key, b: Key, op: Operator)
    requires |a| == |b| && a != [] && op != Equal
    ensures PastSomewhere(a, b, op)
       <==> Holds(Condition(0, op, b[0]), a) || (a[0] == b[0] && PastSomewhere(a[1..], b[1..], op))
  {
    if i: nat :| PastAt(a, b, i, op) {
      if i > 0 {
        assert a[0] == a[..i][0] == b[..i][0] == b[0];
        assert a[1..][..i - 1] == a[..i][1..] && b[1..][..i - 1] == b[..i][1..];
        assert PastAt(a[1..], b[1..], i - 1, op);
      }
    }
    if Holds(Condition(0, op, b[0]), a) {
      assert PastAt(a, b, 0, op);
    }
    if a[0] == b[0] {
      if i: nat :| PastAt(a[1..], b[1..], i, op) {
        assert a[..i + 1] == [a[0]] + a[1..][..i] && b[..i + 1] == [b[0]] + b[1..][..i];
        assert PastAt(a, b, i + 1, op);
      }
    }
  }

  /** For any number of columns, the built filter is the strict lexicographic order. */
  lemma {:induction false} PrefixFilterIsLexicographic(a: Key, key: Key)
    requires |a| == |key|
    ensures FilterHolds(PrefixFilter(key, Less), a) <==> LexLess(a, key)
    ensures FilterHolds(PrefixFilter(key, Greater), a) <==> LexLess(key, a)
  {
    LexLessIffPastSomewhere(a, key);
    forall op: Operator
      ensures FilterHolds(PrefixFilter(key, op), a) <==> PastSomewhere(a, key, op)
    {
      var f := PrefixFilter(key, op);
      forall i | 0 <= i < |key|
        ensures GroupHolds(f[i], a) <==> PastAt(a, key, i, op)
      {
        GroupMeansPastAt(a, key, i, op);
      }
    }
  }

  // ---- requests and responses ----

  /** A cursor text: not a base64 JSON array, or the encoding of one. */
  datatype Cursor = Garbled | Encoded(values: seq<int>)

  datatype PageParam = NoPage | NotNumeric | Number(n: int)

  /** An unfilled parameter is absent; `perPage` is already cast to an integer. */
  datatype Request = Request(
    page: PageParam,
    cursor: Option<Cursor>,
    previousCursor: Option<Cursor>,
    perPage: Option<int>)

  datatype Error = MutuallyExclusive | InvalidPage | InvalidCursor | InvalidPreviousCursor

  datatype Page =
    | CursorPage(items: Table, perPage: nat, hasPrevious: bool, hasNext: bool,
                 nextCursor: Option<Cursor>, previousCursor: Option<Cursor>)
    | OffsetPage(items: Table, perPage: nat, hasPrevious: bool, hasNext: bool,
                 total: nat, currentPage: nat, lastPage: nat)

  const NEWEST: seq<Order> := [Order(0, true), Order(1, true)]
  const OLDEST: seq<Order> := [Order(0, false), Order(1, false)]

  predicate WellFormed(rows: Table) {
    forall r :: r in rows ==> |r.key| == COLUMNS
  }

  /** Rows whose key is below the given one. */
  function Below(rows: Table, key: Key): Table
    requires WellFormed(rows) && |key| == COLUMNS
  {
    if rows == [] then []
    else (if LexLess(rows[0].key, key) then [rows[0]] else []) + Below(rows[1..], key)
  }

  /** Rows whose key is above the given one. */
  function Above(rows: Table, key: Key): Table
    requires WellFormed(rows) && |key| == COLUMNS
  {
    if rows == [] then []
    else (if LexLess(key, rows[0].key) then [rows[0]] else []) + Above(rows[1..], key)
  }

  function Newest(rows: Table): Table {
    Sorting.SortBy(rows, Comparator(NEWEST))
  }

  function Oldest(rows: Table): Table {
    Sorting.SortBy(rows, Comparator(OLDEST))
  }

  function Reversed<T>(s: seq<T>): seq<T> {
    if s == [] then [] else Reversed(s[1..]) + [s[0]]
  }

  function CursorResponse(items: Table, perPage: nat, hasPrevious: bool, hasNext: bool): Page {
    var previous := if hasPrevious && items != [] then Some(Encoded(items[0].key)) else None;
    var next := if hasNext && items != [] then Some(Encoded(items[|items| - 1].key)) else None;
    CursorPage(items, perPage, previous.Some?, next.Some?, next, previous)
  }

  /** The page after `key`, or the first page. */
  function Forward(rows: Table, perPage: nat, key: Option<Key>): Page
    requires WellFormed(rows) && (key.Some? ==> |key.value| == COLUMNS)
  {
    var later := Newest(if key.Some? then Below(rows, key.value) else rows);
    CursorResponse(Take(later, perPage), perPage, key.Some?, |later| > perPage)
  }

  /** The page just before `key`. */
  function Backward(rows: Table, perPage: nat, key: Key): Page
    requires WellFormed(rows) && |key| == COLUMNS
  {
    var earlier := Oldest(Above(rows, key));
    CursorResponse(Reversed(Take(earlier, perPage)), perPage, |earlier| > perPage, true)
  }

  function CeilDiv(a: nat, b: nat): nat
    requires b > 0
  {
    (a + b - 1) / b
  }

  function Max(a: nat, b: nat): nat {
    if a > b then a else b
  }

  function Offset(rows: Table, perPage: nat, page: nat): Page
    requires perPage > 0 && page > 0
  {
    var all := Newest(rows);
    var from := (page - 1) * perPage;
    var last := Max(CeilDiv(|rows|, perPage), 1);
    OffsetPage(Take(all[if from <= |all| then from else |all|..], perPage), perPage,
               page > 1, page < last, |rows|, page, last)
  }

  function PerPage(request: Request): nat {
    var asked := if request.perPage.Some? then request.perPage.value else 50;
    if asked < 1 then 1 else if asked > 200 then 200 else asked
  }

  /** The decoded cursor, when it has one value for each column. */
  function MustDecode(cursor: Cursor): Option<Key> {
    if cursor.Encoded? && |cursor.values| == COLUMNS then Some(cursor.values) else None
  }

  /** What the paginator answers. */
  function Answer(rows: Table, request: Request): Result<Page, Error>
    requires WellFormed(rows)
  {
    var perPage := PerPage(request);
    if request.page != NoPage && (request.cursor.Some? || request.previousCursor.Some?) then Err(MutuallyExclusive)
    else if request.page == NotNumeric || (request.page.Number? && request.page.n < 1) then Err(InvalidPage)
    else if request.page.Number? then Ok(Offset(rows, perPage, request.page.n))
    else if request.previousCursor.Some? then
      match MustDecode(request.previousCursor.value)
      case None => Err(InvalidPreviousCursor)
      case Some(key) => Ok(Backward(rows, perPage, key))
    else if request.cursor.Some? then
      match MustDecode(request.cursor.value)
      case None => Err(InvalidCursor)
      case Some(key) => Ok(Forward(rows, perPage, Some(key)))
    else Ok(Forward(rows, perPage, None))
  }

  lemma {:induction false} SelectedIsBelow(rows: Table, key: Key)
    requires WellFormed(rows) && |key| == COLUMNS
    ensures Selected(rows, [PrefixFilter(key, Less)]) == Below(rows, key)
    ensures Selected(rows, [PrefixFilter(key, Greater)]) == Above(rows, key)
  {
    if rows != [] {
      SelectedIsBelow(rows[1..], key);
      PrefixFilterIsLexicographic(rows[0].key, key);
      assert forall op :: (forall f :: f in [PrefixFilter(key, op)] ==> FilterHolds(f, rows[0].key))
                     <==> FilterHolds(PrefixFilter(key, op), rows[0].key);
    }
  }

  lemma {:induction false} SelectedByNothing(rows: Table)
    ensures Selected(rows, []) == rows
  {
    if rows != [] {
      SelectedByNothing(rows[1..]);
    }
  }

  lemma {:induction false} PrecedesIsOrder(orders: seq<Order>, a: Key, b: Key, c: Key)
    ensures Precedes(orders, a, b) || Precedes(orders, b, a)
    ensures Precedes(orders, a, b) && Precedes(orders, b, c) ==> Precedes(orders, a, c)
  {
    if orders != [] {
      PrecedesIsOrder(orders[1..], a, b, c);
    }
  }

  lemma ComparatorIsOrder(orders: seq<Order>)
    ensures Sorting.TotalPreorder(Comparator(orders))
  {
    forall a, b
      ensures Comparator(orders)(a, b) || Comparator(orders)(b, a)
    {
      PrecedesIsOrder(orders, a.key, b.key, b.key);
    }
    forall a, b, c | Comparator(orders)(a, b) && Comparator(orders)(b, c)
      ensures Comparator(orders)(a, c)
    {
      PrecedesIsOrder(orders, a.key, b.key, c.key);
    }
  }

  lemma NewestLength(rows: Table)
    ensures |Newest(rows)| == |rows|
  {
    ComparatorIsOrder(NEWEST);
    Sorting.SortIsPermutation(rows, Comparator(NEWEST));
  }

  method Respond(rows: Table, perPage: nat, hasPrevious: bool, hasNext: bool) returns (page: Page)
    ensures page == CursorResponse(rows, perPage, hasPrevious, hasNext)
  {
    var previousCursor, nextCursor := None, None;
    if hasPrevious && |rows| > 0 {
      previousCursor := Some(Encoded(rows[0].key));
    }
    if hasNext && |rows| > 0 {
      nextCursor := Some(Encoded(rows[|rows| - 1].key));
    }
    page := CursorPage(rows, perPage, previousCursor != None, nextCursor != None, nextCursor, previousCursor);
  }

  /** Offset mode: a page number. */
  method ByPage(query: Builder, perPage: nat, page: nat) returns (answer: Page)
    requires query.filters == [] && query.orders == [] && perPage > 0 && page > 0
    ensures answer == Offset(query.rows, perPage, page)
  {
    var cloned := query.Clone();
    cloned.OrderBy(0, true);
    cloned.OrderBy(1, true);
    assert cloned.orders == NEWEST && cloned.filters == [];
    SelectedByNothing(query.rows);
    NewestLength(query.rows);
    var total := |cloned.Result()|;
    var items := cloned.Get((page - 1) * perPage, perPage);
    var lastPage := Max(CeilDiv(total, perPage), 1);
    answer := OffsetPage(items, perPage, page > 1, page < lastPage, total, page, lastPage);
  }

  /** Backward mode: the rows just after `key` in age, fetched oldest first and turned round. */
  method ByPreviousCursor(query: Builder, perPage: nat, key: Key) returns (answer: Page)
    requires WellFormed(query.rows) && query.filters == [] && query.orders == [] && |key| == COLUMNS
    ensures answer == Backward(query.rows, perPage, key)
  {
    var cloned := query.Clone();
    ApplyAfter(cloned, COLUMNS, key);
    cloned.OrderBy(0, false);
    cloned.OrderBy(1, false);
    assert cloned.orders == OLDEST && cloned.filters == [PrefixFilter(key, Greater)];
    SelectedIsBelow(query.rows, key);
    ghost var earlier := cloned.Result();
    assert earlier[0..] == earlier;
    var rows := cloned.Get(0, perPage + 1);
    var hasEarlier := |rows| > perPage;
    if hasEarlier {
      rows := rows[..|rows| - 1];
    }
    assert rows == Take(earlier, perPage);
    answer := Respond(Reversed(rows), perPage, hasEarlier, true);
  }

  /** Forward mode, the default. */
  method ByCursor(query: Builder, perPage: nat, key: Option<Key>) returns (answer: Page)
    requires WellFormed(query.rows) && query.filters == [] && query.orders == []
    requires key.Some? ==> |key.value| == COLUMNS
    ensures answer == Forward(query.rows, perPage, key)
  {
    var cloned := query.Clone();
    if key.Some? {
      ApplyBefore(cloned, COLUMNS, key.value);
      SelectedIsBelow(query.rows, key.value);
    }
    cloned.OrderBy(0, true);
    cloned.OrderBy(1, true);
    assert cloned.orders == NEWEST;
    assert cloned.filters == if key.Some? then [PrefixFilter(key.value, Less)] else [];
    SelectedByNothing(query.rows);
    ghost var later := cloned.Result();
    assert later[0..] == later;
    var rows := cloned.Get(0, perPage + 1);
    var hasNext := |rows| > perPage;
    if hasNext {
      rows := rows[..|rows| - 1];
    }
    assert rows == Take(later, perPage);
    answer := Respond(rows, perPage, key.Some?, hasNext);
  }

  /** The query given is only cloned: there is no `modifies`, so it is left as it was. */
  method Paginate(query: Builder, request: Request) returns (answer: Result<Page, Error>)
    requires WellFormed(query.rows) && query.filters == [] && query.orders == []
    ensures answer == Answer(query.rows, request)
  {
    var perPage := PerPage(request);
    var hasPage := request.page != NoPage;
    var hasCursor := request.cursor.Some? || request.previousCursor.Some?;
    if hasPage && hasCursor {
      return Err(MutuallyExclusive);
    }
    if hasPage && (request.page == NotNumeric || request.page.n < 1) {
      return Err(InvalidPage);
    }
    if hasPage {
      var page := ByPage(query, perPage, request.page.n);
      return Ok(page);
    }
    if request.previousCursor.Some? {
      var key := MustDecode(request.previousCursor.value);
      if key == None {
        return Err(InvalidPreviousCursor);
      }
      var page := ByPreviousCursor(query, perPage, key.value);
      return Ok(page);
    }
    var key: Option<Key> := None;
    if request.cursor.Some? {
      key := MustDecode(request.cursor.value);
      if key == None {
        return Err(InvalidCursor);
      }
    }
    var page := ByCursor(query, perPage, key);
    return Ok(page);
  }
}
