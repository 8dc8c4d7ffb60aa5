/** The reconciliation of `no_secops` action items (`SystemMonitor::syncNoSecOpsClients`). */
module Sweep {
  import opened Common
  import opened Schema

  /** The action item table, in id order. */
  type Items = seq<ActionItem>

  const NO_SECOPS: string := "no_secops"
  const CHUNK: nat := 100

  ghost predicate DistinctIds(items: Items) {
    forall i, j :: 0 <= i < j < |items| ==> items[i].id != items[j].id
  }

  /** The next value of the id column, above every id in use. */
  function NextId(items: Items): (id: nat)
    ensures forall a :: a in items ==> a.id < id
  {
    if items == [] then 1
    else
      var rest := NextId(items[1..]);
      assert items == [items[0]] + items[1..];
      if items[0].id < rest then rest else items[0].id + 1
  }

  // ---- updateOrCreate ----

  predicate IsItemOf(a: ActionItem, client: nat) {
    a.actionType == NO_SECOPS && a.server == None && a.client == Some(client)
  }

  /** An existing row keeps its status and assignee: only texts are rewritten. */
  function Ensured(items: Items, client: nat): Items {
    if exists i :: 0 <= i < |items| && IsItemOf(items[i], client) then items
    else items + [ActionItem(NextId(items), NO_SECOPS, None, Some(client), Open, None)]
  }

  function EnsuredAll(items: Items, clients: seq<nat>): Items {
    var n := |clients|;
    if n == 0 then items else Ensured(EnsuredAll(items, clients[..n - 1]), clients[n - 1])
  }

  // ---- the chunked part ----

  /** What the chunked query selects. */
  predicate IsPending(a: ActionItem) {
    a.status == Open && a.actionType == NO_SECOPS
  }

  /** The row's client is not among those without SecOps. */
  predicate Unseen(a: ActionItem, seen: set<nat>) {
    a.client.None? || a.client.value !in seen
  }

  /** An open item that should go. */
  predicate IsStale(a: ActionItem, seen: set<nat>) {
    IsPending(a) && Unseen(a, seen)
  }

  function Pending(items: Items): Items {
    if items == [] then []
    else (if IsPending(items[0]) then [items[0]] else []) + Pending(items[1..])
  }

  function StaleOf(items: Items, seen: set<nat>): Items {
    var n := |items|;
    if n == 0 then [] else StaleOf(items[..n - 1], seen) + if IsStale(items[n - 1], seen) then [items[n - 1]] else []
  }

  function KeptOf(items: Items, seen: set<nat>): Items {
    var n := |items|;
    if n == 0 then [] else KeptOf(items[..n - 1], seen) + if IsStale(items[n - 1], seen) then [] else [items[n - 1]]
  }

  function Min(a: nat, b: nat): nat {
    if a < b then a else b
  }

  /**
   The rows a sweep closes, given the pending rows from the current offset on:
   the stale ones of this page, then, as many rows later as were closed, the next page.
   */
  function ClosedRows(pending: Items, seen: set<nat>): Items
    decreases |pending|
  {
    if |pending| < CHUNK then StaleOf(pending, seen)
    else
      var closed := StaleOf(pending[..CHUNK], seen);
      closed + ClosedRows(pending[CHUNK + Min(|closed|, |pending| - CHUNK)..], seen)
  }

  /** The pending rows a sweep never looks at. */
  function SkippedRows(pending: Items, seen: set<nat>): Items
    decreases |pending|
  {
    if |pending| < CHUNK then []
    else
      var next := CHUNK + Min(|StaleOf(pending[..CHUNK], seen)|, |pending| - CHUNK);
      pending[CHUNK..next] + SkippedRows(pending[next..], seen)
  }

  /** One row after closing `id`: completed when somebody holds the item, deleted otherwise. */
  function RowAfterClose(a: ActionItem, id: nat): Items {
    if a.id != id then [a] else if a.assignedTo.Some? then [a.(status := Completed)] else []
  }

  function CloseRow(items: Items, id: nat): Items {
    if items == [] then [] else RowAfterClose(items[0], id) + CloseRow(items[1..], id)
  }

  function CloseAll(items: Items, closed: Items): Items {
    var n := |closed|;
    if n == 0 then items else CloseRow(CloseAll(items, closed[..n - 1]), closed[n - 1].id)
  }

  function Seen(clients: seq<nat>): set<nat> {
    set c | c in clients
  }

  /** The table after one sweep. */
  function Swept(items: Items, clients: seq<nat>): Items {
    var table := EnsuredAll(items, clients);
    CloseAll(table, ClosedRows(Pending(table), Seen(clients)))
  }

  // ---- paging by offset over rows that disappear ----

  function Without(items: Items, id: nat): Items {
    if items == [] then []
    else (if items[0].id == id then [] else [items[0]]) + Without(items[1..], id)
  }

  lemma {:induction false} PendingAfterClose(items: Items, id: nat)
    ensures Pending(CloseRow(items, id)) == Without(Pending(items), id)
  {
    if items != [] {
      PendingAfterClose(items[1..], id);
      var head, tail := RowAfterClose(items[0], id), CloseRow(items[1..], id);
      if head == [] {
        assert head + tail == tail;
      } else {
        assert (head + tail)[1..] == tail;
      }
      var rest := Pending(items[1..]);
      if IsPending(items[0]) {
        assert ([items[0]] + rest)[1..] == rest;
      } else {
        assert Pending(items) == [] + rest == rest;
      }
    }
  }

  lemma {:induction false} WithoutAbsent(items: Items, id: nat)
    requires forall i :: 0 <= i < |items| ==> items[i].id != id
    ensures Without(items, id) == items
  {
    if items != [] {
      WithoutAbsent(items[1..], id);
    }
  }

  lemma {:induction false} WithoutMiddle(a: Items, row: ActionItem, b: Items)
    requires DistinctIds(a + [row] + b)
    ensures Without(a + [row] + b, row.id) == a + b
  {
    var all := a + [row] + b;
    if a == [] {
      assert all[1..] == b && all[0] == row;
      forall i | 0 <= i < |b|
        ensures b[i].id != row.id
      {
        assert all[i + 1] == b[i];
      }
      WithoutAbsent(b, row.id);
    } else {
      assert all[1..] == a[1..] + [row] + b;
      assert all[|a|] == row;
      WithoutMiddle(a[1..], row, b);
      assert a == [a[0]] + a[1..];
    }
  }

  lemma {:induction false} CloseRowSpares(items: Items, id: nat, a: ActionItem)
    requires a in items && a.id != id
    ensures a in CloseRow(items, id)
  {
    if a in items[1..] {
      CloseRowSpares(items[1..], id, a);
    }
  }

  lemma {:induction false} CloseRowOrigin(items: Items, id: nat, a: ActionItem) returns (i: nat)
    requires a in CloseRow(items, id)
    ensures i < |items| && a in RowAfterClose(items[i], id) && a.id == items[i].id
  {
    if a in RowAfterClose(items[0], id) {
      i := 0;
    } else {
      var k := CloseRowOrigin(items[1..], id, a);
      i := k + 1;
    }
  }

  lemma {:induction false} CloseRowKeepsIdsDistinct(items: Items, id: nat)
    requires DistinctIds(items)
    ensures DistinctIds(CloseRow(items, id))
  {
    if items != [] {
      CloseRowKeepsIdsDistinct(items[1..], id);
      var tail := CloseRow(items[1..], id);
      forall i | 0 <= i < |tail|
        ensures tail[i].id != items[0].id
      {
        var k := CloseRowOrigin(items[1..], id, tail[i]);
        assert items[k + 1].id == tail[i].id;
      }
    }
  }

  lemma {:induction false} PendingMembers(items: Items)
    ensures forall a :: a in Pending(items) <==> a in items && IsPending(a)
  {
    if items != [] {
      PendingMembers(items[1..]);
      assert items == [items[0]] + items[1..];
    }
  }

  lemma {:induction false} PendingIdsDistinct(items: Items)
    requires DistinctIds(items)
    ensures DistinctIds(Pending(items))
  {
    if items != [] {
      PendingIdsDistinct(items[1..]);
      PendingMembers(items[1..]);
      var tail := Pending(items[1..]);
      forall i | 0 <= i < |tail|
        ensures tail[i].id != items[0].id
      {
        assert tail[i] in items[1..];
        var k :| 0 <= k < |items[1..]| && items[1..][k] == tail[i];
        assert items[k + 1] == tail[i];
      }
    }
  }

  lemma {:induction false} EnsuredKeepsIdsDistinct(items: Items, clients: seq<nat>)
    requires DistinctIds(items)
    ensures DistinctIds(EnsuredAll(items, clients))
  {
    if clients != [] {
      EnsuredKeepsIdsDistinct(items, clients[..|clients| - 1]);
      var table := EnsuredAll(items, clients[..|clients| - 1]);
      assert forall i :: 0 <= i < |table| ==> table[i] in table && table[i].id < NextId(table);
    }
  }

  class ActionItemTable {
    var items: Items

    method UpdateOrCreate(client: nat)
      modifies this
      ensures items == Ensured(old(items), client)
    {
      var i, found := 0, false;
      while i < |items| && !found
        invariant 0 <= i <= |items| && items == old(items)
        invariant found ==> exists k :: 0 <= k < |items| && IsItemOf(items[k], client)
        invariant !found ==> forall k :: 0 <= k < i ==> !IsItemOf(items[k], client)
        decreases |items| - i, !found
      {
        if IsItemOf(items[i], client) {
          found := true;
        } else {
          i := i + 1;
        }
      }
      if !found {
        items := items + [ActionItem(NextId(items), NO_SECOPS, None, Some(client), Open, None)];
      }
    }

    /** `$action->update` or `$action->delete()` on one row. */
    method Close(action: ActionItem)
      modifies this
      ensures items == CloseRow(old(items), action.id)
    {
      items := CloseRow(items, action.id);
    }

    /** `skip($offset)->limit($count)` over the pending rows. */
    method Page(offset: nat, count: nat) returns (page: Items)
      ensures var pending := Pending(items);
              var rest := pending[Min(offset, |pending|)..];
              page == rest[..Min(count, |rest|)]
    {
      var pending := Pending(items);
      var rest := pending[Min(offset, |pending|)..];
      page := rest[..Min(count, |rest|)];
    }

    method SyncNoSecOpsClients(clientsWithoutSecOps: seq<nat>)
      requires DistinctIds(items)
      modifies this
      ensures items == Swept(old(items), clientsWithoutSecOps)
    {
      var seenKeys: set<nat> := {};
      var i := 0;
      while i < |clientsWithoutSecOps|
        invariant 0 <= i <= |clientsWithoutSecOps|
        invariant seenKeys == Seen(clientsWithoutSecOps[..i])
        invariant items == EnsuredAll(old(items), clientsWithoutSecOps[..i])
      {
        assert clientsWithoutSecOps[..i + 1][..i] == clientsWithoutSecOps[..i];
        seenKeys := seenKeys + {clientsWithoutSecOps[i]};
        UpdateOrCreate(clientsWithoutSecOps[i]);
        i := i + 1;
      }
      assert clientsWithoutSecOps[..i] == clientsWithoutSecOps;
      EnsuredKeepsIdsDistinct(old(items), clientsWithoutSecOps);
      CloseByChunks(seenKeys);
    }

    /** `chunk(100, ...)`: pages by offset over a selection its own callback shrinks. */
    method CloseByChunks(seen: set<nat>)
      requires DistinctIds(items)
      modifies this
      ensures DistinctIds(items)
      ensures items == CloseAll(old(items), ClosedRows(Pending(old(items)), seen))
    {
      var page, offset, count := 1, 0, CHUNK;
      ghost var closed, all := [], ClosedRows(Pending(items), seen);
      ghost var later := all;
      assert From(Pending(items), 0) == Pending(items);
      assert closed + later == later;
      while count == CHUNK
        invariant page >= 1 && offset == (page - 1) * CHUNK && DistinctIds(items)
        invariant items == CloseAll(old(items), closed)
        invariant all == closed + later
        invariant count == CHUNK ==> later == ClosedRows(From(Pending(items), offset), seen)
        invariant count != CHUNK ==> later == []
        decreases if count == CHUNK then 1 + |From(Pending(items), offset)| else 0
      {
        ghost var stale, rest;
        count, stale, rest := OneChunk(offset, seen);
        CloseAllConcat(old(items), closed, stale);
        Regroup(closed, stale, rest);
        closed, later := closed + stale, rest;
        page, offset := page + 1, offset + CHUNK;
      }
      assert closed + [] == closed;
    }

    /** One page: the query, the stop on an empty result, the callback. */
    method OneChunk(offset: nat, seen: set<nat>) returns (count: nat, ghost stale: Items, ghost later: Items)
      requires DistinctIds(items)
      modifies this
      ensures DistinctIds(items) && items == CloseAll(old(items), stale)
      ensures ClosedRows(From(Pending(old(items)), offset), seen) == stale + later
      ensures later == if count == CHUNK then ClosedRows(From(Pending(items), offset + CHUNK), seen) else []
      ensures count == CHUNK ==> |From(Pending(items), offset + CHUNK)| < |From(Pending(old(items)), offset)|
    {
      ghost var pending := Pending(items);
      PageSplits(pending, offset);
      ChunkStep(pending, offset, seen);
      var actions := Page(offset, CHUNK);
      count := |actions|;
      stale, later := StaleOf(actions, seen), [];
      if count == 0 {
        return;
      }
      CloseStale(actions, seen, pending[..Min(offset, |pending|)], From(pending, offset)[count..]);
      if count == CHUNK {
        later := ClosedRows(From(Pending(items), offset + CHUNK), seen);
      }
    }

    /** One chunk's callback. */
    method CloseStale(actions: Items, seen: set<nat>, ghost before: Items, ghost after: Items)
      requires DistinctIds(items) && Pending(items) == before + actions + after
      modifies this
      ensures DistinctIds(items)
      ensures items == CloseAll(old(items), StaleOf(actions, seen))
      ensures Pending(items) == before + KeptOf(actions, seen) + after
    {
      var j := 0;
      assert actions[..0] == [] && actions == actions[0..];
      while j < |actions|
        invariant 0 <= j <= |actions|
        invariant DistinctIds(items)
        invariant items == CloseAll(old(items), StaleOf(actions[..j], seen))
        invariant Pending(items) == before + KeptOf(actions[..j], seen) + (actions[j..] + after)
      {
        CloseIfUnseen(old(items), actions, j, seen, before, after);
        j := j + 1;
      }
      assert actions[..j] == actions && actions[j..] + after == after;
    }

    /** One turn of the callback's loop. */
    method CloseIfUnseen(
      ghost start: Items, actions: Items, j: nat, seen: set<nat>, ghost before: Items, ghost after: Items)
      requires j < |actions| && DistinctIds(items)
      requires items == CloseAll(start, StaleOf(actions[..j], seen))
      requires Pending(items) == before + KeptOf(actions[..j], seen) + (actions[j..] + after)
      modifies this
      ensures DistinctIds(items)
      ensures items == CloseAll(start, StaleOf(actions[..j + 1], seen))
      ensures Pending(items) == before + KeptOf(actions[..j + 1], seen) + (actions[j + 1..] + after)
    {
      var action := actions[j];
      OneActionSelection(items, actions, seen, j, before, after);
      OneActionTable(start, actions, seen, j);
      if Unseen(action, seen) {
        Close(action);
      }
    }
  }

  lemma PageSplits(pending: Items, offset: nat)
    ensures var rest := From(pending, offset);
            var page := rest[..Min(CHUNK, |rest|)];
            && pending == pending[..Min(offset, |pending|)] + page + rest[|page|..]
            && rest == page + rest[|page|..]
  {
  }

  lemma Regroup(a: Items, b: Items, c: Items)
    ensures a + (b + c) == (a + b) + c
  {
  }

  lemma {:induction false} CloseAllConcat(items: Items, a: Items, b: Items)
    ensures CloseAll(items, a + b) == CloseAll(CloseAll(items, a), b)
  {
    if b == [] {
      assert a + b == a;
    } else {
      var b' := b[..|b| - 1];
      CloseAllConcat(items, a, b');
      assert (a + b)[..|a + b| - 1] == a + b';
    }
  }

  lemma {:induction false} StaleAndKept(items: Items, seen: set<nat>)
    ensures |StaleOf(items, seen)| + |KeptOf(items, seen)| == |items|
  {
    if items != [] {
      StaleAndKept(items[..|items| - 1], seen);
    }
  }

  /** The rows from an offset on; nothing past the end. */
  function From(items: Items, offset: nat): Items {
    items[Min(offset, |items|)..]
  }

  /** After a full page, the next offset skips as many of the rows that moved up as the page lost. */
  lemma {:induction false} NextPage(before: Items, page: Items, after: Items, seen: set<nat>)
    requires |page| == CHUNK
    ensures var rest := page + after;
            From(before + KeptOf(page, seen) + after, |before| + CHUNK)
            == rest[CHUNK + Min(|StaleOf(page, seen)|, |rest| - CHUNK)..]
  {
    StaleAndKept(page, seen);
    var left := before + KeptOf(page, seen);
    assert forall k :: |left| <= k <= |left + after| ==> (left + after)[k..] == after[k - |left|..];
    assert forall k :: CHUNK <= k <= |page + after| ==> (page + after)[k..] == after[k - CHUNK..];
  }

  /** One turn of the page loop closes the page's stale rows and leaves the rest of the closing to the next offset. */
  lemma {:induction false} ChunkStep(pending: Items, offset: nat, seen: set<nat>)
    ensures var rest := From(pending, offset);
            var page := rest[..Min(CHUNK, |rest|)];
            var next := pending[..Min(offset, |pending|)] + KeptOf(page, seen) + rest[|page|..];
            if |page| == CHUNK then
              && ClosedRows(rest, seen) == StaleOf(page, seen) + ClosedRows(From(next, offset + CHUNK), seen)
              && |From(next, offset + CHUNK)| < |rest|
            else ClosedRows(rest, seen) == StaleOf(page, seen)
  {
    PageSplits(pending, offset);
    var before, rest := pending[..Min(offset, |pending|)], From(pending, offset);
    var page := rest[..Min(CHUNK, |rest|)];
    if |page| == CHUNK {
      NextPage(before, page, rest[CHUNK..], seen);
    } else {
      assert page == rest;
    }
  }

  lemma {:induction false} FilterStep(actions: Items, seen: set<nat>, j: nat)
    requires j < |actions|
    ensures StaleOf(actions[..j + 1], seen)
         == StaleOf(actions[..j], seen) + if IsStale(actions[j], seen) then [actions[j]] else []
    ensures KeptOf(actions[..j + 1], seen)
         == KeptOf(actions[..j], seen) + if IsStale(actions[j], seen) then [] else [actions[j]]
  {
    assert actions[..j + 1][..j] == actions[..j];
  }

  /** Closing one pending row takes it out of the selection and moves the rest up. */
  lemma {:induction false} CloseInTheMiddle(items: Items, done: Items, action: ActionItem, rest: Items)
    requires DistinctIds(items) && Pending(items) == done + [action] + rest
    ensures Pending(CloseRow(items, action.id)) == done + rest
    ensures DistinctIds(CloseRow(items, action.id))
  {
    PendingIdsDistinct(items);
    PendingAfterClose(items, action.id);
    WithoutMiddle(done, action, rest);
    CloseRowKeepsIdsDistinct(items, action.id);
  }

  lemma {:induction false} SelectedIsPending(items: Items, done: Items, action: ActionItem, rest: Items)
    requires Pending(items) == done + [action] + rest
    ensures IsPending(action)
  {
    PendingMembers(items);
    assert Pending(items)[|done|] == action;
  }

  /** One turn of the callback's loop, seen from the selected rows. */
  lemma OneActionSelection(items: Items, actions: Items, seen: set<nat>, j: nat, before: Items, after: Items)
    requires j < |actions| && DistinctIds(items)
    requires Pending(items) == before + KeptOf(actions[..j], seen) + (actions[j..] + after)
    ensures IsStale(actions[j], seen) <==> Unseen(actions[j], seen)
    ensures var next := if Unseen(actions[j], seen) then CloseRow(items, actions[j].id) else items;
            && DistinctIds(next)
            && Pending(next) == before + KeptOf(actions[..j + 1], seen) + (actions[j + 1..] + after)
  {
    var action, kept, rest := actions[j], KeptOf(actions[..j], seen), actions[j + 1..] + after;
    assert actions[j..] + after == [action] + rest;
    MoveOne(before, kept, action, rest);
    SelectedIsPending(items, before + kept, action, rest);
    FilterStep(actions, seen, j);
    if Unseen(action, seen) {
      CloseInTheMiddle(items, before + kept, action, rest);
    }
  }

  lemma MoveOne(before: Items, kept: Items, action: ActionItem, rest: Items)
    ensures before + kept + ([action] + rest) == (before + kept) + [action] + rest
    ensures before + kept + ([action] + rest) == before + (kept + [action]) + rest
    ensures before + (kept + []) + rest == before + kept + rest
  {
  }

  /** One turn of the callback's loop, seen from the whole table. */
  lemma {:induction false} OneActionTable(start: Items, actions: Items, seen: set<nat>, j: nat)
    requires j < |actions|
    ensures var table := CloseAll(start, StaleOf(actions[..j], seen));
            CloseAll(start, StaleOf(actions[..j + 1], seen))
            == if IsStale(actions[j], seen) then CloseRow(table, actions[j].id) else table
  {
    FilterStep(actions, seen, j);
    var closed := StaleOf(actions[..j], seen);
    assert (closed + [actions[j]])[..|closed|] == closed;
    assert closed + [] == closed;
  }
}
