/** The action items of an outage: which one is raised, which ones an end of it clears, and which ones stay. */
module BoardLaws {
  import opened Common
  import opened Clock
  import opened Schema
  import opened Database
  import opened Monitor
  import opened Heartbeat
  import opened Effects
  import opened Fleet
  import opened FleetLaws

  // ---- one item ----

  predicate OccursAt(s: string, part: string, k: nat) {
    k + |part| <= |s| && s[k..k + |part|] == part
  }

  /** `part` occurs somewhere in the text. */
  ghost predicate Infix(s: string, part: string) {
    exists k: nat :: OccursAt(s, part, k)
  }

  lemma OccursInTail(s: string, part: string, k: nat)
    requires s != ""
    ensures OccursAt(s[1..], part, k) <==> OccursAt(s, part, k + 1)
  {
    if k + 1 + |part| <= |s| {
      assert s[1..][k..k + |part|] == s[k + 1..k + 1 + |part|];
    }
  }

  lemma {:induction false} ContainsIsInfix(s: string, part: string)
    ensures Contains(s, part) <==> Infix(s, part)
  {
    assert part <= s <==> OccursAt(s, part, 0);
    if !(part <= s) && s != "" {
      ContainsIsInfix(s[1..], part);
      if k: nat :| OccursAt(s[1..], part, k) {
        OccursInTail(s, part, k);
      }
      if k: nat :| OccursAt(s, part, k) {
        OccursInTail(s, part, k - 1);
      }
    }
  }

  lemma {:induction false} ServerOfflineIsOffline()
    ensures Infix("server_offline", "offline")
  {
    assert OccursAt("server_offline", "offline", 7);
  }

  /** The open item that says this server of this client is offline, with nobody's name on it. */
  predicate SaysOffline(a: ActionItem, u: Uuid, client: nat) {
    && a.actionType == "server_offline" && a.server == Some(u) && a.client == Some(client)
    && a.status == Open && a.assignedTo == None
  }

  ghost predicate OnBoard(items: seq<ActionItem>, u: Uuid, client: nat) {
    exists a :: a in items && SaysOffline(a, u, client)
  }

  /** What the end of an outage does to a row it selects: claimed work is completed, the rest is gone. */
  ghost predicate Cleared(a: ActionItem, after: seq<ActionItem>) {
    a !in after && (a.assignedTo.Some? ==> a.(status := Completed) in after)
  }

  lemma OpenRowsOnlyStay(items: seq<ActionItem>, u: Uuid, anyOffline: bool, a: ActionItem)
    requires a.status == Open && a !in items
    ensures a !in Resolved(items, u, anyOffline)
  {
    if a in Resolved(items, u, anyOffline) {
      DeleteUnassignedMembers(CompleteAssigned(items, u, anyOffline), u, anyOffline, a);
      CompleteAssignedMembers(items, u, anyOffline, a);
    }
  }

  lemma ResolvedOnceMore(items: seq<ActionItem>, u: Uuid, anyOffline: bool, a: ActionItem)
    requires a.status == Open && Cleared(a, items)
    ensures Cleared(a, Resolved(items, u, anyOffline))
  {
    OpenRowsOnlyStay(items, u, anyOffline, a);
    if a.assignedTo.Some? {
      ResolvedFate(items, u, anyOffline, a.(status := Completed));
    }
  }

  // ---- heartbeats ----

  /** The row a heartbeat for these servers clears. */
  predicate ClearedByBeat(a: ActionItem, us: seq<Uuid>) {
    a.status == Open && a.actionType == "server_offline" && a.server.Some? && a.server.value in us
  }

  lemma {:induction false} ServedAllFate(w: World, us: seq<Uuid>, now: Time, raw: int, a: ActionItem)
    requires (forall v :: v in us ==> v in w.reg.servers) && a in w.items
    ensures var after := ServedAll(w, us, now, raw).items;
            if ClearedByBeat(a, us) then Cleared(a, after) else a in after
  {
    var n := |us|;
    if n > 0 {
      var front, last := us[..n - 1], us[n - 1];
      ServedAllFate(w, front, now, raw, a);
      assert us == front + [last];
      var mid := ServedAll(w, front, now, raw).items;
      assert ServedAll(w, us, now, raw).items == Resolved(mid, last, false);
      if ClearedByBeat(a, front) {
        ResolvedOnceMore(mid, last, false, a);
      } else {
        ResolvedFate(mid, last, false, a);
      }
    }
  }

  /**
   A heartbeat clears the open `server_offline` items of the servers it
   is accepted for, and leaves every other row.
   */
  lemma {:induction false} HeartbeatClears(w: World, t: Tick, now: Time, raw: int, a: ActionItem)
    requires (t.Beat? || t.LegacyBeat?) && a in w.items
    ensures var after := Ticked(w, t, now, raw).items;
            if ClearedByBeat(a, AcceptedBy(w.reg, t)) then Cleared(a, after) else a in after
  {
    if SeenBy(w.reg, t).Some? {
      BeatenFate(w, SeenBy(w.reg, t).value, AcceptedBy(w.reg, t), now, raw, a);
    }
  }

  lemma BeatenFate(w: World, agent: nat, accepted: seq<Uuid>, now: Time, raw: int, a: ActionItem)
    requires agent < |w.reg.agents| && (forall v :: v in accepted ==> v in w.reg.servers) && a in w.items
    ensures var after := Beaten(w, agent, accepted, now, raw).items;
            if ClearedByBeat(a, accepted) then Cleared(a, after) else a in after
  {
    var gain := Gain(w.reg.agents[agent].lastSeen, now, raw);
    CreditedAllFrame(w, accepted, gain);
    ServedAllFate(Seen(CreditedAll(w, accepted, gain), agent, now), accepted, now, raw, a);
  }

  // ---- monitor jobs ----

  /** The row a recovery of the server clears: any open item whose type speaks of `offline`. */
  ghost predicate ClearedByRecovery(a: ActionItem, u: Uuid) {
    a.status == Open && a.server == Some(u) && Infix(a.actionType, "offline")
  }

  lemma RecoveredFate(w: World, u: Uuid, a: ActionItem)
    requires u in w.reg.servers && a in w.items
    ensures var after := Recovered(w, u).items;
            if ClearedByRecovery(a, u) then Cleared(a, after) else a in after
  {
    ContainsIsInfix(a.actionType, "offline");
    ServerOfflineIsOffline();
    var mid := Resolved(w.items, u, false);
    ResolvedFate(w.items, u, false, a);
    if IsOpenOffline(a, u, false) {
      ResolvedOnceMore(mid, u, true, a);
    } else {
      ResolvedFate(mid, u, true, a);
    }
  }

  /**
   A health check that finds the owner in time clears every open item of
   the server about being offline, and no other row.
   */
  lemma RecoveryClears(w: World, u: Uuid, now: Time, raw: int, a: ActionItem)
    requires Watched(w.reg, u) && !Overdue(w.reg, u, now, raw) && a in w.items
    ensures var after := Monitored(w, u, now, raw).items;
            if ClearedByRecovery(a, u) then Cleared(a, after) else a in after
  {
    RecoveredFate(w, u, a);
  }

  // ---- the item that is raised ----

  lemma {:induction false} NextIdIsNew(items: seq<ActionItem>, a: ActionItem)
    requires a in items
    ensures a.id < NextItemId(items)
  {
    if a in items[1..] {
      NextIdIsNew(items[1..], a);
    }
  }

  /** The `server_offline` row of this server and client. */
  predicate IsRowOf(a: ActionItem, u: Uuid, client: nat) {
    a.actionType == "server_offline" && a.server == Some(u) && a.client == Some(client)
  }

  lemma {:induction false} FindsIt(items: seq<ActionItem>, u: Uuid, client: nat)
    ensures var found := FindOfflineItem(items, u, client);
            if found.Some? then
              && found.value < |items|
              && IsRowOf(items[found.value], u, client)
            else forall a :: a in items ==> !IsRowOf(a, u, client)
  {
    if items != [] {
      FindsIt(items[1..], u, client);
      assert items == [items[0]] + items[1..];
    }
  }

  /**
   Raising puts the item on the board: the row of this server and client is reopened and taken
   from whoever held it, and only if there is none a row with an id above all others is added.
   */
  lemma RaisedIsOnBoard(items: seq<ActionItem>, u: Uuid, client: nat) returns (k: nat)
    ensures var after := Raised(items, u, client);
            && k < |after| && SaysOffline(after[k], u, client)
            && |items| <= |after| && (forall i :: 0 <= i < |items| && i != k ==> after[i] == items[i])
            && if k < |items| then
                 && |after| == |items| && after[k] == items[k].(status := Open, assignedTo := None)
               else
                 && k == |items| == |after| - 1 && (forall a :: a in items ==> a.id < after[k].id)
                 && forall a :: a in items ==> !IsRowOf(a, u, client)
  {
    var found := FindOfflineItem(items, u, client);
    FindsIt(items, u, client);
    k := if found.Some? then found.value else |items|;
    forall a | a in items
      ensures a.id < NextItemId(items)
    {
      NextIdIsNew(items, a);
    }
  }

  lemma RaisedKeepsOthers(items: seq<ActionItem>, v: Uuid, client: nat, a: ActionItem)
    requires a in items && a.server != Some(v)
    ensures a in Raised(items, v, client)
  {
    var k := RaisedIsOnBoard(items, v, client);
    var i :| 0 <= i < |items| && items[i] == a;
    assert k < |items| ==> items[k].server == Some(v);
    assert Raised(items, v, client)[i] == a;
  }

  lemma MonitoredRaises(w: World, v: Uuid, now: Time, raw: int, u: Uuid)
    requires u in w.reg.servers && w.reg.servers[u].status != Offline
    ensures var after := Monitored(w, v, now, raw);
            u in after.reg.servers && after.reg.servers[u].status == Offline ==>
              OnBoard(after.items, u, w.reg.servers[u].clientId)
  {
    var k := RaisedIsOnBoard(w.items, u, w.reg.servers[u].clientId);
  }

  lemma DetailRaises(w: World, v: Uuid, now: Time, raw: int, u: Uuid)
    requires u in w.reg.servers && w.reg.servers[u].status != Offline && v in w.reg.servers
    ensures var after := DetailRead(w, v, now, raw).0;
            u in after.reg.servers && after.reg.servers[u].status == Offline ==>
              OnBoard(after.items, u, w.reg.servers[u].clientId)
  {
    var k := RaisedIsOnBoard(w.items, u, w.reg.servers[u].clientId);
  }

  /** Whatever takes a server offline puts its item, with its client, on the board. */
  lemma GoingOfflineRaises(w: World, t: Tick, now: Time, raw: int, u: Uuid)
    requires u in w.reg.servers && w.reg.servers[u].status != Offline
    ensures var after := Ticked(w, t, now, raw);
            u in after.reg.servers && after.reg.servers[u].status == Offline ==>
              OnBoard(after.items, u, w.reg.servers[u].clientId)
  {
    hide Monitored, DetailRead, Beaten, Raised;
    match t
    case Beat(_, _) => TickEffect(w, t, now, raw, u);
    case LegacyBeat(_, _) => TickEffect(w, t, now, raw, u);
    case RunMonitor(v) => MonitoredRaises(w, v, now, raw, u);
    case RunCheck(job) => MonitoredRaises(w.(jobs := w.jobs - multiset{job}), job.server, now, raw, u);
    case ReadDetail(v) =>
      if v in w.reg.servers { DetailRaises(w, v, now, raw, u); }
  }

  lemma MonitoredKeepsItem(w: World, v: Uuid, now: Time, raw: int, a: ActionItem)
    requires a in w.items && a.server != Some(v)
    ensures a in Monitored(w, v, now, raw).items
  {
    if Watched(w.reg, v) {
      if Overdue(w.reg, v, now, raw) {
        RaisedKeepsOthers(w.items, v, w.reg.servers[v].clientId, a);
      } else {
        RecoveredFate(w, v, a);
      }
    }
  }

  lemma DetailKeepsItem(w: World, v: Uuid, now: Time, raw: int, a: ActionItem)
    requires v in w.reg.servers && a in w.items && a.server != Some(v)
    ensures a in DetailRead(w, v, now, raw).0.items
  {
    RaisedKeepsOthers(w.items, v, w.reg.servers[v].clientId, a);
  }

  /** While a server stays offline no tick touches its items. */
  lemma StayingOfflineKeepsItems(w: World, t: Tick, now: Time, raw: int, u: Uuid, a: ActionItem)
    requires u in w.reg.servers && w.reg.servers[u].status == Offline && a in w.items && a.server == Some(u)
    requires StatusAfter(w, t, now, raw, u) == Offline
    ensures a in Ticked(w, t, now, raw).items
  {
    match t
    case Beat(_, _) => HeartbeatClears(w, t, now, raw, a);
    case LegacyBeat(_, _) => HeartbeatClears(w, t, now, raw, a);
    case RunMonitor(v) =>
      if v != u { MonitoredKeepsItem(w, v, now, raw, a); }
    case RunCheck(job) =>
      if job.server != u { MonitoredKeepsItem(w.(jobs := w.jobs - multiset{job}), job.server, now, raw, a); }
    case ReadDetail(v) =>
      if v != u && v in w.reg.servers { DetailKeepsItem(w, v, now, raw, a); }
  }

  /** In every run an offline server has its own item on the board: its client's, open, with nobody's name on it. */
  lemma {:induction false} OfflineIsOnBoard(events: seq<Event>, u: Uuid)
    requires IsRun(events)
    ensures u in Run(events).reg.servers && Run(events).reg.servers[u].status == Offline ==>
              OnBoard(Run(events).items, u, Run(events).reg.servers[u].clientId)
  {
    if events != [] {
      var n := |events| - 1;
      LastStep(events);
      OfflineIsOnBoard(events[..n], u);
      StepKeepsBoard(Run(events[..n]), events[n], u);
    }
  }

  lemma StepKeepsBoard(w: World, e: Event, u: Uuid)
    requires RegOk(w.reg)
    requires u in w.reg.servers && w.reg.servers[u].status == Offline ==> OnBoard(w.items, u, w.reg.servers[u].clientId)
    ensures var after := Stepped(w, e);
            u in after.reg.servers && after.reg.servers[u].status == Offline ==>
              OnBoard(after.items, u, after.reg.servers[u].clientId)
  {
    match e.action
    case Monitoring(t) =>
      TickRegistry(w, t, e.now, e.raw);
      if u in w.reg.servers {
        TickEffect(w, t, e.now, e.raw, u);
        if w.reg.servers[u].status != Offline {
          GoingOfflineRaises(w, t, e.now, e.raw, u);
        } else if StatusAfter(w, t, e.now, e.raw, u) == Offline {
          var a :| a in w.items && SaysOffline(a, u, w.reg.servers[u].clientId);
          StayingOfflineKeepsItems(w, t, e.now, e.raw, u, a);
        }
      }
    case Provision(c) => ChangeRow(w.reg, c, e.now, u);
  }

  // ---- the table of items ----

  /** The two rows compete for one outage. */
  predicate SameOutage(a: ActionItem, b: ActionItem) {
    && a.actionType == "server_offline" && b.actionType == "server_offline"
    && a.server == b.server && a.client == b.client
  }

  /** Ids are a key, and no server of a client has two `server_offline` rows. */
  ghost predicate ItemsOk(items: seq<ActionItem>) {
    forall i, j :: 0 <= i < j < |items| ==> items[i].id != items[j].id && !SameOutage(items[i], items[j])
  }

  lemma {:induction false} CompletedAt(items: seq<ActionItem>, u: Uuid, anyOffline: bool, i: nat)
    requires i < |items|
    ensures |CompleteAssigned(items, u, anyOffline)| == |items|
    ensures var after := CompleteAssigned(items, u, anyOffline)[i]; after == items[i].(status := after.status)
  {
    CompletedLength(items, u, anyOffline);
    if i > 0 {
      CompletedAt(items[1..], u, anyOffline, i - 1);
    }
  }

  lemma {:induction false} CompletedLength(items: seq<ActionItem>, u: Uuid, anyOffline: bool)
    ensures |CompleteAssigned(items, u, anyOffline)| == |items|
  {
    if items != [] {
      CompletedLength(items[1..], u, anyOffline);
    }
  }

  lemma {:induction false} CompletedOk(items: seq<ActionItem>, u: Uuid, anyOffline: bool)
    requires ItemsOk(items)
    ensures ItemsOk(CompleteAssigned(items, u, anyOffline))
  {
    var after := CompleteAssigned(items, u, anyOffline);
    CompletedLength(items, u, anyOffline);
    forall i, j | 0 <= i < j < |after|
      ensures after[i].id != after[j].id && !SameOutage(after[i], after[j])
    {
      CompletedAt(items, u, anyOffline, i);
      CompletedAt(items, u, anyOffline, j);
    }
  }

  lemma {:induction false} DeletedOk(items: seq<ActionItem>, u: Uuid, anyOffline: bool)
    requires ItemsOk(items)
    ensures ItemsOk(DeleteUnassigned(items, u, anyOffline))
  {
    if items != [] {
      DeletedOk(items[1..], u, anyOffline);
      var rest := DeleteUnassigned(items[1..], u, anyOffline);
      forall j | 0 <= j < |rest|
        ensures items[0].id != rest[j].id && !SameOutage(items[0], rest[j])
      {
        DeleteUnassignedMembers(items[1..], u, anyOffline, rest[j]);
        var k :| 0 <= k < |items[1..]| && items[1..][k] == rest[j];
        assert items[k + 1] == rest[j];
      }
    }
  }

  lemma ResolvedOk(items: seq<ActionItem>, u: Uuid, anyOffline: bool)
    requires ItemsOk(items)
    ensures ItemsOk(Resolved(items, u, anyOffline))
  {
    CompletedOk(items, u, anyOffline);
    DeletedOk(CompleteAssigned(items, u, anyOffline), u, anyOffline);
  }

  lemma RaisedOk(items: seq<ActionItem>, u: Uuid, client: nat)
    requires ItemsOk(items)
    ensures ItemsOk(Raised(items, u, client))
  {
    var k := RaisedIsOnBoard(items, u, client);
    var after := Raised(items, u, client);
    forall i, j | 0 <= i < j < |after|
      ensures after[i].id != after[j].id && !SameOutage(after[i], after[j])
    {
      if k == |items| == j {
        assert after[i] in items;
      }
    }
  }

  lemma {:induction false} ServedAllOk(w: World, us: seq<Uuid>, now: Time, raw: int)
    requires (forall v :: v in us ==> v in w.reg.servers) && ItemsOk(w.items)
    ensures ItemsOk(ServedAll(w, us, now, raw).items)
  {
    var n := |us|;
    if n > 0 {
      ServedAllOk(w, us[..n - 1], now, raw);
      ResolvedOk(ServedAll(w, us[..n - 1], now, raw).items, us[n - 1], false);
    }
  }

  lemma BeatenOk(w: World, agent: nat, accepted: seq<Uuid>, now: Time, raw: int)
    requires agent < |w.reg.agents| && (forall v :: v in accepted ==> v in w.reg.servers) && ItemsOk(w.items)
    ensures ItemsOk(Beaten(w, agent, accepted, now, raw).items)
  {
    var gain := Gain(w.reg.agents[agent].lastSeen, now, raw);
    CreditedAllFrame(w, accepted, gain);
    ServedAllOk(Seen(CreditedAll(w, accepted, gain), agent, now), accepted, now, raw);
  }

  lemma MonitoredOk(w: World, v: Uuid, now: Time, raw: int)
    requires ItemsOk(w.items)
    ensures ItemsOk(Monitored(w, v, now, raw).items)
  {
    if Watched(w.reg, v) {
      if Overdue(w.reg, v, now, raw) {
        RaisedOk(w.items, v, w.reg.servers[v].clientId);
      } else {
        ResolvedOk(w.items, v, false);
        ResolvedOk(Resolved(w.items, v, false), v, true);
      }
    }
  }

  lemma TickKeepsItemsOk(w: World, t: Tick, now: Time, raw: int)
    requires ItemsOk(w.items)
    ensures ItemsOk(Ticked(w, t, now, raw).items)
  {
    match t
    case Beat(agent, listed) =>
      if Authenticates(w.reg, agent) { BeatenOk(w, agent, AcceptedOf(w.reg, agent, listed), now, raw); }
    case LegacyBeat(agent, v) =>
      if AcceptedBy(w.reg, t) != [] { BeatenOk(w, agent, [v], now, raw); }
    case RunMonitor(v) => MonitoredOk(w, v, now, raw);
    case RunCheck(job) => MonitoredOk(w.(jobs := w.jobs - multiset{job}), job.server, now, raw);
    case ReadDetail(v) =>
      if v in w.reg.servers { RaisedOk(w.items, v, w.reg.servers[v].clientId); }
  }

  /**
   In every run ids are a key and no server of a client has two
   `server_offline` items, however often it goes offline.
   */
  lemma {:induction false} OneItemEach(events: seq<Event>)
    requires IsRun(events)
    ensures ItemsOk(Run(events).items)
  {
    if events != [] {
      var n := |events| - 1;
      LastStep(events);
      OneItemEach(events[..n]);
      if events[n].action.Monitoring? {
        TickKeepsItemsOk(Run(events[..n]), events[n].action.tick, events[n].now, events[n].raw);
      }
    }
  }
}
