/** What the sweep closes, what it spares, and how fast repeated sweeps finish. */
module SweepLaws {
  import opened Common
  import opened Schema
  import opened Sweep

  // ---- the rows a sweep closes ----

  lemma {:induction false} StaleConcat(a: Items, b: Items, seen: set<nat>)
    ensures StaleOf(a + b, seen) == StaleOf(a, seen) + StaleOf(b, seen)
  {
    if b == [] {
      assert a + b == a;
    } else {
      var b' := b[..|b| - 1];
      StaleConcat(a, b', seen);
      assert (a + b)[..|a + b| - 1] == a + b';
    }
  }

  lemma {:induction false} StaleMembers(rows: Items, seen: set<nat>)
    ensures forall a :: a in StaleOf(rows, seen) <==> a in rows && IsStale(a, seen)
  {
    var n := |rows|;
    if n > 0 {
      StaleMembers(rows[..n - 1], seen);
      assert rows == rows[..n - 1] + [rows[n - 1]];
    }
  }

  lemma {:induction false} StaleDistinct(rows: Items, seen: set<nat>)
    requires DistinctIds(rows)
    ensures DistinctIds(StaleOf(rows, seen))
  {
    var n := |rows|;
    if n > 0 {
      var stale := StaleOf(rows[..n - 1], seen);
      StaleDistinct(rows[..n - 1], seen);
      StaleMembers(rows[..n - 1], seen);
      forall i | 0 <= i < |stale|
        ensures stale[i].id != rows[n - 1].id
      {
        assert stale[i] in rows[..n - 1];
      }
    }
  }

  /** The pending rows as one chunk reads them: a full page, the rows it makes the next page miss, and the rest. */
  lemma Pages(pending: Items, seen: set<nat>) returns (page: Items, gap: Items, rest: Items)
    requires |pending| >= CHUNK
    ensures pending == page + gap + rest && |page| == CHUNK && |gap| <= |StaleOf(page, seen)|
    ensures ClosedRows(pending, seen) == StaleOf(page, seen) + ClosedRows(rest, seen)
    ensures SkippedRows(pending, seen) == gap + SkippedRows(rest, seen)
    ensures gap == pending[CHUNK..CHUNK + Min(|StaleOf(page, seen)|, |pending| - CHUNK)]
  {
    page := pending[..CHUNK];
    var next := CHUNK + Min(|StaleOf(page, seen)|, |pending| - CHUNK);
    gap, rest := pending[CHUNK..next], pending[next..];
  }

  /** Only stale rows are closed, each once. */
  lemma {:induction false} ClosedAreStale(pending: Items, seen: set<nat>)
    ensures forall a :: a in ClosedRows(pending, seen) ==> a in pending && IsStale(a, seen)
    ensures DistinctIds(pending) ==> DistinctIds(ClosedRows(pending, seen))
    decreases |pending|
  {
    if |pending| < CHUNK {
      StaleMembers(pending, seen);
      if DistinctIds(pending) {
        StaleDistinct(pending, seen);
      }
    } else {
      var page, gap, rest := Pages(pending, seen);
      ClosedAreStale(rest, seen);
      StaleMembers(page, seen);
      if DistinctIds(pending) {
        PartsDistinct(page, gap, rest);
        StaleDistinct(page, seen);
        ConcatDistinct(StaleOf(page, seen), ClosedRows(rest, seen), page, rest);
      }
    }
  }

  lemma PartsDistinct(a: Items, b: Items, c: Items)
    requires DistinctIds(a + b + c)
    ensures DistinctIds(a) && DistinctIds(c)
    ensures forall x, y :: x in a && y in c ==> x.id != y.id
  {
    var all := a + b + c;
    assert forall i :: 0 <= i < |a| ==> all[i] == a[i];
    assert forall i :: 0 <= i < |c| ==> all[|a + b| + i] == c[i];
  }

  lemma ConcatDistinct(a: Items, b: Items, a': Items, b': Items)
    requires DistinctIds(a) && DistinctIds(b)
    requires forall x :: x in a ==> x in a'
    requires forall y :: y in b ==> y in b'
    requires forall x, y :: x in a' && y in b' ==> x.id != y.id
    ensures DistinctIds(a + b)
  {
  }

  /**
   Of the stale rows, the ones not closed are exactly those skipped, and
   they are at most as many as the closed ones.
   */
  lemma {:induction false} ClosedAndSkipped(pending: Items, seen: set<nat>)
    ensures |StaleOf(pending, seen)| == |ClosedRows(pending, seen)| + |StaleOf(SkippedRows(pending, seen), seen)|
    ensures |StaleOf(SkippedRows(pending, seen), seen)| <= |ClosedRows(pending, seen)|
    decreases |pending|
  {
    if |pending| >= CHUNK {
      var page, gap, rest := Pages(pending, seen);
      ClosedAndSkipped(rest, seen);
      StaleConcat(page + gap, rest, seen);
      StaleConcat(page, gap, seen);
      StaleConcat(gap, SkippedRows(rest, seen), seen);
      StaleAndKept(gap, seen);
    }
  }

  // ---- closing rows takes them out of the selection ----

  function WithoutAll(rows: Items, closed: Items): Items {
    var n := |closed|;
    if n == 0 then rows else Without(WithoutAll(rows, closed[..n - 1]), closed[n - 1].id)
  }

  lemma {:induction false} PendingAfterCloseAll(items: Items, closed: Items)
    ensures Pending(CloseAll(items, closed)) == WithoutAll(Pending(items), closed)
  {
    var n := |closed|;
    if n > 0 {
      PendingAfterCloseAll(items, closed[..n - 1]);
      PendingAfterClose(CloseAll(items, closed[..n - 1]), closed[n - 1].id);
    }
  }

  /** Removing one row by its id removes that row alone. */
  lemma {:induction false} WithoutOne(rows: Items, row: ActionItem, seen: set<nat>)
    requires DistinctIds(rows) && row in rows
    ensures var left := Without(rows, row.id);
            && DistinctIds(left)
            && (forall a :: a in rows && a.id != row.id ==> a in left)
            && |StaleOf(left, seen)| == |StaleOf(rows, seen)| - if IsStale(row, seen) then 1 else 0
  {
    var k :| 0 <= k < |rows| && rows[k] == row;
    var a, b := rows[..k], rows[k + 1..];
    assert rows == a + [row] + b;
    WithoutMiddle(a, row, b);
    PartsDistinct(a, [row], b);
    ConcatDistinct(a, b, a, b);
    StaleConcat(a + [row], b, seen);
    StaleConcat(a, [row], seen);
    StaleConcat(a, b, seen);
    assert [row][..0] == [];
    assert StaleOf([row], seen) == if IsStale(row, seen) then [row] else [];
  }

  lemma {:induction false} WithoutAllCount(rows: Items, closed: Items, seen: set<nat>)
    requires DistinctIds(rows) && DistinctIds(closed)
    requires forall a :: a in closed ==> a in rows && IsStale(a, seen)
    ensures var left := WithoutAll(rows, closed);
            && DistinctIds(left)
            && (forall a :: a in rows && (forall c :: c in closed ==> c.id != a.id) ==> a in left)
            && |StaleOf(left, seen)| == |StaleOf(rows, seen)| - |closed|
  {
    var n := |closed|;
    if n > 0 {
      var earlier, last := closed[..n - 1], closed[n - 1];
      WithoutAllCount(rows, earlier, seen);
      assert last in closed;
      assert forall c :: c in earlier ==> c in closed && c.id != last.id;
      WithoutOne(WithoutAll(rows, earlier), last, seen);
    }
  }

  // ---- ensuring items adds nothing stale ----

  lemma {:induction false} PendingConcat(a: Items, b: Items)
    ensures Pending(a + b) == Pending(a) + Pending(b)
  {
    if a == [] {
      assert a + b == b;
    } else {
      PendingConcat(a[1..], b);
      assert (a + b)[1..] == a[1..] + b;
      var head := if IsPending(a[0]) then [a[0]] else [];
      assert Pending(a) == head + Pending(a[1..]);
      assert Pending(a + b) == head + Pending(a[1..] + b);
      Regroup(head, Pending(a[1..]), Pending(b));
    }
  }

  lemma {:induction false} AddingNoneStale(before: Items, added: Items, seen: set<nat>)
    requires forall a :: a in added ==> !IsStale(a, seen)
    ensures StaleOf(Pending(before + added), seen) == StaleOf(Pending(before), seen)
  {
    PendingConcat(before, added);
    StaleConcat(Pending(before), Pending(added), seen);
    PendingMembers(added);
    NoneStale(Pending(added), seen);
  }

  lemma {:induction false} NoneStale(rows: Items, seen: set<nat>)
    requires forall a :: a in rows ==> !IsStale(a, seen)
    ensures StaleOf(rows, seen) == []
  {
    var n := |rows|;
    if n > 0 {
      NoneStale(rows[..n - 1], seen);
      assert rows[n - 1] in rows;
    }
  }

  /** An item is added only for a client that has none, and is not stale. */
  lemma {:induction false} EnsuringOne(items: Items, client: nat, seen: set<nat>)
    requires client in seen
    ensures items <= Ensured(items, client)
    ensures StaleOf(Pending(Ensured(items, client)), seen) == StaleOf(Pending(items), seen)
    ensures exists a :: a in Ensured(items, client) && IsItemOf(a, client)
  {
    if i :| 0 <= i < |items| && IsItemOf(items[i], client) {
      assert items[i] in Ensured(items, client);
    } else {
      var item := ActionItem(NextId(items), NO_SECOPS, None, Some(client), Open, None);
      AddingNoneStale(items, [item], seen);
      assert item in Ensured(items, client);
    }
  }

  /** Ensuring items for all clients without SecOps adds nothing stale. */
  lemma {:induction false} EnsuringAddsNoStale(items: Items, clients: seq<nat>, seen: set<nat>)
    requires forall c :: c in clients ==> c in seen
    ensures items <= EnsuredAll(items, clients)
    ensures StaleOf(Pending(EnsuredAll(items, clients)), seen) == StaleOf(Pending(items), seen)
  {
    var n := |clients|;
    if n > 0 {
      assert clients[n - 1] in clients;
      EnsuringAddsNoStale(items, clients[..n - 1], seen);
      EnsuringOne(EnsuredAll(items, clients[..n - 1]), clients[n - 1], seen);
    }
  }

  /** Every client without SecOps has an item. */
  lemma {:induction false} EnsuringReachesAll(items: Items, clients: seq<nat>, c: nat)
    requires c in clients
    ensures exists a :: a in EnsuredAll(items, clients) && IsItemOf(a, c)
  {
    var n := |clients|;
    var before := EnsuredAll(items, clients[..n - 1]);
    EnsuringOne(before, clients[n - 1], {clients[n - 1]});
    if c != clients[n - 1] {
      EnsuringReachesAll(items, clients[..n - 1], c);
      var a :| a in before && IsItemOf(a, c);
      assert a in EnsuredAll(items, clients);
    }
  }

  // ---- one sweep ----

  /** The open items of clients that have SecOps again. */
  function Stale(items: Items, clients: seq<nat>): nat {
    |StaleOf(Pending(items), Seen(clients))|
  }

  lemma {:induction false} CloseAllSpares(items: Items, closed: Items, a: ActionItem)
    requires a in items && forall c :: c in closed ==> c.id != a.id
    ensures a in CloseAll(items, closed)
  {
    var n := |closed|;
    if n > 0 {
      CloseAllSpares(items, closed[..n - 1], a);
      CloseRowSpares(CloseAll(items, closed[..n - 1]), closed[n - 1].id, a);
    }
  }

  lemma {:induction false} CloseAllKeepsIdsDistinct(items: Items, closed: Items)
    requires DistinctIds(items)
    ensures DistinctIds(CloseAll(items, closed))
  {
    var n := |closed|;
    if n > 0 {
      CloseAllKeepsIdsDistinct(items, closed[..n - 1]);
      CloseRowKeepsIdsDistinct(CloseAll(items, closed[..n - 1]), closed[n - 1].id);
    }
  }

  lemma SweepKeepsIdsDistinct(items: Items, clients: seq<nat>)
    requires DistinctIds(items)
    ensures DistinctIds(Swept(items, clients))
  {
    EnsuredKeepsIdsDistinct(items, clients);
    var table := EnsuredAll(items, clients);
    CloseAllKeepsIdsDistinct(table, ClosedRows(Pending(table), Seen(clients)));
  }

  /** Rows with one id are one row. */
  lemma SameIdSameRow(items: Items, a: ActionItem, b: ActionItem)
    requires DistinctIds(items) && a in items && b in items
    ensures a.id == b.id ==> a == b
  {
    var i :| 0 <= i < |items| && items[i] == a;
    var j :| 0 <= j < |items| && items[j] == b;
  }

  lemma {:induction false} NotStaleIsSpared(table: Items, seen: set<nat>, a: ActionItem)
    requires DistinctIds(table) && a in table && !IsStale(a, seen)
    ensures a in CloseAll(table, ClosedRows(Pending(table), seen))
  {
    var closed := ClosedRows(Pending(table), seen);
    ClosedAreStale(Pending(table), seen);
    PendingMembers(table);
    forall c | c in closed
      ensures c.id != a.id
    {
      SameIdSameRow(table, c, a);
    }
    CloseAllSpares(table, closed, a);
  }

  /**
   A sweep leaves every row that is not stale exactly as it was: no item of a client
   that still lacks SecOps is closed, and no row of another kind is touched. Every
   such client has an item afterwards.
   */
  lemma SweepSparesTheRest(items: Items, clients: seq<nat>)
    requires DistinctIds(items)
    ensures forall a :: a in items && !IsStale(a, Seen(clients)) ==> a in Swept(items, clients)
    ensures forall c :: c in clients ==> exists a :: a in Swept(items, clients) && IsItemOf(a, c)
  {
    var table, seen := EnsuredAll(items, clients), Seen(clients);
    EnsuringAddsNoStale(items, clients, seen);
    EnsuredKeepsIdsDistinct(items, clients);
    forall a | a in items && !IsStale(a, seen)
      ensures a in Swept(items, clients)
    {
      assert a in table;
      NotStaleIsSpared(table, seen, a);
    }
    forall c | c in clients
      ensures exists a :: a in Swept(items, clients) && IsItemOf(a, c)
    {
      EnsuringReachesAll(items, clients, c);
      var a :| a in table && IsItemOf(a, c);
      NotStaleIsSpared(table, seen, a);
    }
  }

  /** The item that says this client has no SecOps, on no server. */
  predicate SaysNoSecOps(a: ActionItem, client: nat) {
    a.actionType == "no_secops" && a.server == None && a.client == Some(client)
  }

  /** An open, unclaimed item that says so, with an id above all of these. */
  ghost predicate IsOpened(a: ActionItem, client: nat, items: Items) {
    SaysNoSecOps(a, client) && a.status == Open && a.assignedTo == None && forall b :: b in items ==> b.id < a.id
  }

  /** Open, speaking of a missing SecOps, and of no client that lacks it. */
  predicate IsOutdated(a: ActionItem, clients: seq<nat>) {
    a.status == Open && a.actionType == "no_secops" && (a.client.None? || a.client.value !in clients)
  }

  lemma StaleIsOutdated(a: ActionItem, clients: seq<nat>)
    ensures IsStale(a, Seen(clients)) <==> IsOutdated(a, clients)
  {
  }

  lemma {:induction false} EnsuredRow(items: Items, clients: seq<nat>, c: nat) returns (k: nat)
    requires c in clients && forall a :: a in items ==> !SaysNoSecOps(a, c)
    ensures |items| <= k < |EnsuredAll(items, clients)|
    ensures IsOpened(EnsuredAll(items, clients)[k], c, items)
  {
    hide StaleOf, Pending, NextId;
    var n := |clients|;
    var front, last := clients[..n - 1], clients[n - 1];
    var before, table := EnsuredAll(items, front), EnsuredAll(items, clients);
    EnsuringAddsNoStale(items, front, Seen(front));
    assert clients == front + [last];
    if c in front {
      k := EnsuredRow(items, front, c);
      assert IsItemOf(before[k], c);
      assert table[k] == before[k];
    } else {
      EnsuringLeavesOthers(items, front, c);
      k := |before|;
      assert forall i :: 0 <= i < |before| ==> before[i] in before;
      assert forall a :: a in items ==> a in before;
    }
  }

  lemma {:induction false} EnsuringLeavesOthers(items: Items, clients: seq<nat>, c: nat)
    requires c !in clients && forall a :: a in items ==> !SaysNoSecOps(a, c)
    ensures forall a :: a in EnsuredAll(items, clients) ==> !SaysNoSecOps(a, c)
  {
    if clients != [] {
      EnsuringLeavesOthers(items, clients[..|clients| - 1], c);
    }
  }

  /**
   A client that newly lacks SecOps has an item after the sweep: open,
   unclaimed, with an id above all that were there.
   */
  lemma {:induction false} SweepOpensItem(items: Items, clients: seq<nat>, c: nat) returns (row: ActionItem)
    requires DistinctIds(items) && c in clients && forall a :: a in items ==> !SaysNoSecOps(a, c)
    ensures row in Swept(items, clients)
    ensures IsOpened(row, c, items)
  {
    var k := EnsuredRow(items, clients, c);
    var table := EnsuredAll(items, clients);
    row := table[k];
    EnsuredKeepsIdsDistinct(items, clients);
    assert row in table && !IsStale(row, Seen(clients));
    NotStaleIsSpared(table, Seen(clients), row);
  }

  lemma {:induction false} EnsuringAddsNoSecond(items: Items, clients: seq<nat>, c: nat, b: ActionItem)
    requires (exists a :: a in items && SaysNoSecOps(a, c)) && b in EnsuredAll(items, clients) && SaysNoSecOps(b, c)
    ensures b in items
  {
    if clients != [] {
      var n := |clients|;
      var front, last := clients[..n - 1], clients[n - 1];
      var before := EnsuredAll(items, front);
      EnsuringAddsNoStale(items, front, Seen(front));
      var a :| a in items && SaysNoSecOps(a, c);
      var k :| 0 <= k < |items| && items[k] == a;
      assert before[k] == a && IsItemOf(before[k], c);
      EnsuredAddsOther(before, last, c, b);
      EnsuringAddsNoSecond(items, front, c, b);
    }
  }

  lemma EnsuredAddsOther(items: Items, client: nat, c: nat, b: ActionItem)
    requires exists k :: 0 <= k < |items| && IsItemOf(items[k], c)
    requires b in Ensured(items, client) && SaysNoSecOps(b, c)
    ensures b in items
  {
  }

  lemma {:induction false} CloseAllOrigin(items: Items, closed: Items, b: ActionItem) returns (a: ActionItem)
    requires b in CloseAll(items, closed)
    ensures a in items && (b == a || b == a.(status := Completed))
  {
    if closed == [] {
      a := b;
    } else {
      var n := |closed|;
      var before := CloseAll(items, closed[..n - 1]);
      var i := CloseRowOrigin(before, closed[n - 1].id, b);
      a := CloseAllOrigin(items, closed[..n - 1], before[i]);
    }
  }

  /** A client that lacks SecOps and has an item, open or completed, gets no second one, and its own stays as it is. */
  lemma {:induction false} SweepAddsNoSecond(items: Items, clients: seq<nat>, c: nat, b: ActionItem)
    requires DistinctIds(items) && c in clients && exists a :: a in items && SaysNoSecOps(a, c)
    requires b in Swept(items, clients) && SaysNoSecOps(b, c)
    ensures b in items
  {
    var table, seen := EnsuredAll(items, clients), Seen(clients);
    var a := CloseAllOrigin(table, ClosedRows(Pending(table), seen), b);
    EnsuringAddsNoSecond(items, clients, c, a);
    EnsuredKeepsIdsDistinct(items, clients);
    assert !IsStale(a, seen);
    NotStaleIsSpared(table, seen, a);
    SweepKeepsIdsDistinct(items, clients);
    SameIdSameRow(Swept(items, clients), a, b);
  }

  lemma {:induction false} CloseRowFate(items: Items, id: nat, a: ActionItem)
    requires DistinctIds(items) && a in items && a.id == id
    ensures a.assignedTo.Some? ==> a.(status := Completed) in CloseRow(items, id)
    ensures a.assignedTo.None? ==> forall b :: b in CloseRow(items, id) ==> b.id != id
  {
    if a.assignedTo.Some? {
      CloseRowPuts(items, id, a);
    } else {
      forall b | b in CloseRow(items, id)
        ensures b.id != id
      {
        var i := CloseRowOrigin(items, id, b);
        SameIdSameRow(items, items[i], a);
      }
    }
  }

  lemma {:induction false} CloseRowPuts(items: Items, id: nat, a: ActionItem)
    requires a in items && a.id == id && a.assignedTo.Some?
    ensures a.(status := Completed) in CloseRow(items, id)
  {
    if a in items[1..] {
      CloseRowPuts(items[1..], id, a);
    }
  }

  /** Closing rows changes nothing but what closing each of them does. */
  lemma {:induction false} CloseAllFate(items: Items, closed: Items, a: ActionItem)
    requires DistinctIds(items) && DistinctIds(closed) && a in items && a in closed
    requires forall c :: c in closed ==> c in items
    ensures a.assignedTo.Some? ==> a.(status := Completed) in CloseAll(items, closed)
    ensures a.assignedTo.None? ==> forall b :: b in CloseAll(items, closed) ==> b.id != a.id
  {
    var earlier, last := closed[..|closed| - 1], closed[|closed| - 1];
    var before := CloseAll(items, earlier);
    CloseAllKeepsIdsDistinct(items, earlier);
    assert forall c :: c in earlier ==> c in closed;
    if a.id == last.id {
      SameIdSameRow(closed, a, last);
      assert forall c :: c in earlier ==> c.id != a.id;
      CloseAllSpares(items, earlier, a);
      CloseRowFate(before, last.id, a);
    } else {
      CloseAllFate(items, earlier, a);
      if a.assignedTo.Some? {
        CloseRowSpares(before, last.id, a.(status := Completed));
      } else {
        forall b | b in CloseAll(items, closed)
          ensures b.id != a.id
        {
          var i := CloseRowOrigin(before, last.id, b);
          assert before[i] in before;
        }
      }
    }
  }

  /** A row a sweep closes is completed if somebody holds it, and gone otherwise. */
  lemma {:induction false} SweepClosesBy(items: Items, clients: seq<nat>, a: ActionItem)
    requires DistinctIds(items)
    requires a in ClosedRows(Pending(EnsuredAll(items, clients)), Seen(clients))
    ensures a in EnsuredAll(items, clients) && IsStale(a, Seen(clients))
    ensures a.assignedTo.Some? ==> a.(status := Completed) in Swept(items, clients)
    ensures a.assignedTo.None? ==> forall b :: b in Swept(items, clients) ==> b.id != a.id
  {
    var table, seen := EnsuredAll(items, clients), Seen(clients);
    EnsuredKeepsIdsDistinct(items, clients);
    PendingMembers(table);
    PendingIdsDistinct(table);
    ClosedAreStale(Pending(table), seen);
    CloseAllFate(table, ClosedRows(Pending(table), seen), a);
  }

  /**
   Paging by offset over rows that disappear: a sweep closes at least half of the
   stale rows, and leaves exactly the stale ones among the rows it skips.
   */
  lemma {:induction false} SweepHalvesStale(items: Items, clients: seq<nat>)
    requires DistinctIds(items)
    ensures 2 * Stale(Swept(items, clients), clients) <= Stale(items, clients)
    ensures Stale(items, clients) > 0 ==> Stale(Swept(items, clients), clients) < Stale(items, clients)
    ensures Stale(Swept(items, clients), clients)
         == |StaleOf(SkippedRows(Pending(EnsuredAll(items, clients)), Seen(clients)), Seen(clients))|
  {
    var table, seen := EnsuredAll(items, clients), Seen(clients);
    var pending := Pending(table);
    var closed := ClosedRows(pending, seen);
    EnsuringAddsNoStale(items, clients, seen);
    EnsuredKeepsIdsDistinct(items, clients);
    PendingIdsDistinct(table);
    ClosedAreStale(pending, seen);
    ClosedAndSkipped(pending, seen);
    WithoutAllCount(pending, closed, seen);
    PendingAfterCloseAll(table, closed);
  }

  // ---- when one sweep is enough ----

  /** How many of the first `p` rows stay. */
  function StayingBefore(pending: Items, seen: set<nat>, p: nat): nat
    requires p <= |pending|
  {
    |KeptOf(pending[..p], seen)|
  }

  /**
   A stale row past the first page is met if the rows staying before it fill one more
   hundred than those staying before the row a page earlier.
   */
  predicate IsMet(pending: Items, seen: set<nat>, p: nat)
    requires p < |pending|
  {
    p < 100 || StayingBefore(pending, seen, p - 100) / 100 < StayingBefore(pending, seen, p) / 100
  }

  predicate AllStaleMet(pending: Items, seen: set<nat>) {
    forall p :: 0 <= p < |pending| && IsStale(pending[p], seen) ==> IsMet(pending, seen, p)
  }

  lemma {:induction false} KeptConcat(a: Items, b: Items, seen: set<nat>)
    ensures KeptOf(a + b, seen) == KeptOf(a, seen) + KeptOf(b, seen)
  {
    if b == [] {
      assert a + b == a;
    } else {
      var b' := b[..|b| - 1];
      KeptConcat(a, b', seen);
      assert (a + b)[..|a + b| - 1] == a + b';
    }
  }

  lemma {:induction false} StayingAcross(front: Items, rest: Items, seen: set<nat>, p: nat)
    requires p <= |front + rest|
    ensures StayingBefore(front + rest, seen, p)
         == if p < |front| then StayingBefore(front, seen, p)
            else |KeptOf(front, seen)| + StayingBefore(rest, seen, p - |front|)
  {
    if p < |front| {
      assert (front + rest)[..p] == front[..p];
    } else {
      assert (front + rest)[..p] == front + rest[..p - |front|];
      KeptConcat(front, rest[..p - |front|], seen);
    }
  }

  /** Inside a page and the rows it makes the next one miss, fewer than a hundred rows stay before any row. */
  lemma {:induction false} FewStayInside(page: Items, gap: Items, seen: set<nat>, p: nat)
    requires |page| == CHUNK && |gap| <= |StaleOf(page, seen)| && p < |page + gap|
    ensures StayingBefore(page + gap, seen, p) < CHUNK
  {
    StayingAcross(page, gap, seen, p);
    StaleAndKept(page, seen);
    if p < CHUNK {
      StaleAndKept(page[..p], seen);
    } else {
      StaleAndKept(gap[..p - CHUNK], seen);
    }
  }

  /** When the missed rows are not stale, the page and they are followed as if the selection began there. */
  lemma {:induction false} MetAfter(front: Items, rest: Items, seen: set<nat>, r: nat)
    requires |KeptOf(front, seen)| == CHUNK && |front| >= CHUNK && r < |rest|
    requires forall p :: 0 <= p < |front| ==> StayingBefore(front, seen, p) < CHUNK
    ensures IsMet(front + rest, seen, |front| + r) <==> IsMet(rest, seen, r)
  {
    StayingAcross(front, rest, seen, |front| + r);
    StayingAcross(front, rest, seen, |front| + r - CHUNK);
  }

  lemma GapStays(page: Items, gap: Items, seen: set<nat>)
    requires |page| == CHUNK && forall a :: a in gap ==> !IsStale(a, seen)
    ensures forall p :: CHUNK <= p < |page + gap| ==> !IsStale((page + gap)[p], seen)
  {
    forall p | CHUNK <= p < |page + gap|
      ensures !IsStale((page + gap)[p], seen)
    {
      assert (page + gap)[p] == gap[p - CHUNK];
    }
  }

  lemma {:induction false} AllMetAfter(page: Items, gap: Items, rest: Items, seen: set<nat>)
    requires |page| == CHUNK && |gap| == |StaleOf(page, seen)| && forall a :: a in gap ==> !IsStale(a, seen)
    ensures AllStaleMet(page + gap + rest, seen) <==> AllStaleMet(rest, seen)
  {
    var front := page + gap;
    var all := front + rest;
    KeptConcat(page, gap, seen);
    StaleAndKept(page, seen);
    StaleAndKept(gap, seen);
    NoneStale(gap, seen);
    forall p | 0 <= p < |front|
      ensures StayingBefore(front, seen, p) < CHUNK
    {
      FewStayInside(page, gap, seen, p);
    }
    forall r | 0 <= r < |rest|
      ensures all[|front| + r] == rest[r] && (IsMet(all, seen, |front| + r) <==> IsMet(rest, seen, r))
    {
      MetAfter(front, rest, seen, r);
    }
    GapStays(page, gap, seen);
    assert forall p :: 0 <= p < |front| && IsStale(all[p], seen) ==> IsMet(all, seen, p);
    if AllStaleMet(rest, seen) {
      forall p | 0 <= p < |all| && IsStale(all[p], seen)
        ensures IsMet(all, seen, p)
      {
        assert p >= |front| ==> all[p] == rest[p - |front|];
        assert p >= |front| ==> IsMet(rest, seen, p - |front|);
      }
    }
  }

  /** A stale row among the rows a page makes the next one miss is not met. */
  lemma {:induction false} MissedIsNotMet(page: Items, gap: Items, rest: Items, seen: set<nat>, i: nat)
    requires |page| == CHUNK && |gap| <= |StaleOf(page, seen)| && i < |gap| && IsStale(gap[i], seen)
    ensures !AllStaleMet(page + gap + rest, seen)
  {
    var p := CHUNK + i;
    var all := page + gap + rest;
    StayingAcross(page + gap, rest, seen, p);
    FewStayInside(page, gap, seen, p);
    assert all[p] == gap[i];
    assert !IsMet(all, seen, p);
  }

  /** What a sweep skips holds no stale row exactly when every stale row is met. */
  lemma {:induction false} SkipsNoneWhenMet(pending: Items, seen: set<nat>)
    ensures (forall a :: a in SkippedRows(pending, seen) ==> !IsStale(a, seen)) <==> AllStaleMet(pending, seen)
    decreases |pending|
  {
    if |pending| >= CHUNK {
      var page, gap, rest := Pages(pending, seen);
      SkipsNoneWhenMet(rest, seen);
      if i :| 0 <= i < |gap| && IsStale(gap[i], seen) {
        assert gap[i] in SkippedRows(pending, seen);
        MissedIsNotMet(page, gap, rest, seen, i);
      } else if |gap| == |StaleOf(page, seen)| {
        AllMetAfter(page, gap, rest, seen);
      } else {
        NothingLeft(page, gap, seen);
        assert rest == [] && pending == page + gap;
      }
    }
  }

  lemma NothingLeft(page: Items, gap: Items, seen: set<nat>)
    requires |page| == CHUNK && forall a :: a in gap ==> !IsStale(a, seen)
    ensures AllStaleMet(page + gap, seen)
  {
    GapStays(page, gap, seen);
  }

  /**
   One sweep is enough exactly when every stale row of the selection is met, which can be
   counted from positions alone: hundreds of staying rows before it and a page earlier. So it
   is whenever the selection fits one page. What survives is what is stale among the skipped rows.
   */
  lemma {:induction false} SweepClearsExactlyWhen(items: Items, clients: seq<nat>)
    requires DistinctIds(items)
    ensures var pending, seen := Pending(EnsuredAll(items, clients)), Seen(clients);
            && (Stale(Swept(items, clients), clients) == 0 <==> AllStaleMet(pending, seen))
            && (Stale(Swept(items, clients), clients) == 0
                <==> forall a :: a in SkippedRows(pending, seen) ==> !IsStale(a, seen))
            && (|pending| <= 100 ==> Stale(Swept(items, clients), clients) == 0)
  {
    var pending, seen := Pending(EnsuredAll(items, clients)), Seen(clients);
    SweepHalvesStale(items, clients);
    SkipsNoneWhenMet(pending, seen);
    var skipped := SkippedRows(pending, seen);
    StaleMembers(skipped, seen);
    if StaleOf(skipped, seen) != [] {
      assert StaleOf(skipped, seen)[0] in skipped;
    }
  }

  /** One sweep may not be enough: of 101 to 200 pending rows, all stale, those after the first page survive it. */
  lemma {:induction false} AllStaleLeavesTheSecondPage(items: Items, clients: seq<nat>)
    requires DistinctIds(items)
    requires var pending := Pending(EnsuredAll(items, clients));
             100 < |pending| <= 200 && forall a :: a in pending ==> IsStale(a, Seen(clients))
    ensures Stale(Swept(items, clients), clients) == |Pending(EnsuredAll(items, clients))| - 100
  {
    var pending, seen := Pending(EnsuredAll(items, clients)), Seen(clients);
    SweepHalvesStale(items, clients);
    var page, gap, rest := Pages(pending, seen);
    AllStaleIsAll(page, seen);
    assert rest == [] && SkippedRows(pending, seen) == gap;
    AllStaleIsAll(gap, seen);
  }

  lemma {:induction false} AllStaleIsAll(rows: Items, seen: set<nat>)
    requires forall a :: a in rows ==> IsStale(a, seen)
    ensures StaleOf(rows, seen) == rows
  {
    var n := |rows|;
    if n > 0 {
      AllStaleIsAll(rows[..n - 1], seen);
      assert rows[n - 1] in rows;
    }
  }

  // ---- repeated sweeps ----

  function Sweeps(items: Items, clients: seq<nat>, n: nat): Items {
    if n == 0 then items else Swept(Sweeps(items, clients, n - 1), clients)
  }

  function Pow2(n: nat): nat {
    if n == 0 then 1 else 2 * Pow2(n - 1)
  }

  /** `x`, doubled `n` times, is at most the bound. */
  predicate Within(n: nat, x: nat, bound: nat) {
    if n == 0 then x <= bound else Within(n - 1, 2 * x, bound)
  }

  lemma {:induction false} WithinMonotone(n: nat, x: nat, y: nat, bound: nat)
    requires x <= y && Within(n, y, bound)
    ensures Within(n, x, bound)
  {
    if n > 0 {
      WithinMonotone(n - 1, 2 * x, 2 * y, bound);
    }
  }

  lemma {:induction false} WithinIsPower(n: nat, x: nat, bound: nat)
    requires Within(n, x, bound)
    ensures Pow2(n) * x <= bound
  {
    if n > 0 {
      WithinIsPower(n - 1, 2 * x, bound);
      assert Pow2(n - 1) * (2 * x) == Pow2(n) * x;
    }
  }

  lemma {:induction false} OneMoreSweep(before: Items, clients: seq<nat>, n: nat, bound: nat)
    requires DistinctIds(before) && n > 0 && Within(n - 1, Stale(before, clients), bound)
    ensures DistinctIds(Swept(before, clients)) && Within(n, Stale(Swept(before, clients), clients), bound)
  {
    SweepKeepsIdsDistinct(before, clients);
    SweepHalvesStale(before, clients);
    WithinMonotone(n - 1, 2 * Stale(Swept(before, clients), clients), Stale(before, clients), bound);
  }

  /** While the same clients lack SecOps, `n` sweeps divide the stale rows by two to the `n`. */
  lemma {:induction false} SweepsHalve(items: Items, clients: seq<nat>, n: nat)
    requires DistinctIds(items)
    ensures DistinctIds(Sweeps(items, clients, n))
    ensures Within(n, Stale(Sweeps(items, clients, n), clients), Stale(items, clients))
  {
    if n > 0 {
      SweepsHalve(items, clients, n - 1);
      OneMoreSweep(Sweeps(items, clients, n - 1), clients, n, Stale(items, clients));
    }
  }

  /** Hence enough sweeps leave none. */
  lemma {:induction false} SweepsConverge(items: Items, clients: seq<nat>, n: nat)
    requires DistinctIds(items)
    ensures Pow2(n) * Stale(Sweeps(items, clients, n), clients) <= Stale(items, clients)
    ensures Stale(items, clients) < Pow2(n) ==> Stale(Sweeps(items, clients, n), clients) == 0
  {
    SweepsHalve(items, clients, n);
    WithinIsPower(n, Stale(Sweeps(items, clients, n), clients), Stale(items, clients));
    AtLeastItself(Pow2(n), Stale(Sweeps(items, clients, n), clients));
  }

  lemma AtLeastItself(p: nat, x: nat)
    ensures x > 0 ==> p <= p * x
  {
  }
}
