/** What one monitoring step does to one server, whatever else it does. */
module Effects {
  import opened Common
  import opened Clock
  import opened Schema
  import opened Database
  import opened Monitor
  import opened Heartbeat

  // ---- reading a world ----

  /** The logged transitions of a server, oldest first. */
  function LogOf(activities: seq<Transition>, u: Uuid): seq<Status> {
    var n := |activities|;
    if n == 0 then []
    else LogOf(activities[..n - 1], u) + if activities[n - 1].server == u then [activities[n - 1].status] else []
  }

  lemma {:induction false} LogGrows(activities: seq<Transition>, t: Transition, u: Uuid)
    ensures LogOf(activities + [t], u) == LogOf(activities, u) + if t.server == u then [t.status] else []
  {
    assert (activities + [t])[..|activities|] == activities;
  }

  /** The server has an open `server_offline` item. */
  ghost predicate HasOpenItem(items: seq<ActionItem>, u: Uuid) {
    exists a :: a in items && IsOpenOffline(a, u, false)
  }

  /** When the owner was last seen. */
  function OwnerSeen(reg: Registry, u: Uuid): Option<Stamp> {
    if u in reg.servers && reg.servers[u].agentId.Some? && reg.servers[u].agentId.value < |reg.agents|
    then reg.agents[reg.servers[u].agentId.value].lastSeen else None
  }

  // ---- items ----

  lemma {:induction false} CompleteAssignedMembers(items: seq<ActionItem>, u: Uuid, anyOffline: bool, a: ActionItem)
    requires a in CompleteAssigned(items, u, anyOffline) && a.status == Open
    ensures a in items && !(IsOpenOffline(a, u, anyOffline) && a.assignedTo.Some?)
  {
    if a in CompleteAssigned(items[1..], u, anyOffline) {
      CompleteAssignedMembers(items[1..], u, anyOffline, a);
    }
  }

  lemma {:induction false} DeleteUnassignedMembers(items: seq<ActionItem>, u: Uuid, anyOffline: bool, a: ActionItem)
    requires a in DeleteUnassigned(items, u, anyOffline)
    ensures a in items && !(IsOpenOffline(a, u, anyOffline) && a.assignedTo.None?)
  {
    if a in DeleteUnassigned(items[1..], u, anyOffline) {
      DeleteUnassignedMembers(items[1..], u, anyOffline, a);
    }
  }

  /** Resolving leaves no open item of the server, and opens none of any other. */
  lemma ResolvedHasNoOpenItem(items: seq<ActionItem>, u: Uuid, anyOffline: bool, v: Uuid)
    ensures !HasOpenItem(Resolved(items, u, anyOffline), u)
    ensures HasOpenItem(Resolved(items, u, anyOffline), v) ==> HasOpenItem(items, v)
  {
    forall a | a in Resolved(items, u, anyOffline) && a.status == Open
      ensures a in items && !IsOpenOffline(a, u, anyOffline)
    {
      DeleteUnassignedMembers(CompleteAssigned(items, u, anyOffline), u, anyOffline, a);
      CompleteAssignedMembers(items, u, anyOffline, a);
    }
  }

  lemma {:induction false} CompleteAssignedKeeps(items: seq<ActionItem>, u: Uuid, anyOffline: bool, a: ActionItem)
    requires a in items
    ensures (if IsOpenOffline(a, u, anyOffline) && a.assignedTo.Some? then a.(status := Completed) else a)
            in CompleteAssigned(items, u, anyOffline)
  {
    if a in items[1..] {
      CompleteAssignedKeeps(items[1..], u, anyOffline, a);
    }
  }

  lemma {:induction false} DeleteUnassignedKeeps(items: seq<ActionItem>, u: Uuid, anyOffline: bool, a: ActionItem)
    requires a in items && !(IsOpenOffline(a, u, anyOffline) && a.assignedTo.None?)
    ensures a in DeleteUnassigned(items, u, anyOffline)
  {
    if a in items[1..] {
      DeleteUnassignedKeeps(items[1..], u, anyOffline, a);
    }
  }

  /** What resolving leaves of one row: a claimed item completed, an unclaimed one gone, any other row as it was. */
  lemma ResolvedFate(items: seq<ActionItem>, u: Uuid, anyOffline: bool, a: ActionItem)
    requires a in items
    ensures !IsOpenOffline(a, u, anyOffline) ==> a in Resolved(items, u, anyOffline)
    ensures IsOpenOffline(a, u, anyOffline) && a.assignedTo.Some?
            ==> a.(status := Completed) in Resolved(items, u, anyOffline)
    ensures IsOpenOffline(a, u, anyOffline) ==> a !in Resolved(items, u, anyOffline)
  {
    CompleteAssignedKeeps(items, u, anyOffline, a);
    var completed := CompleteAssigned(items, u, anyOffline);
    if !IsOpenOffline(a, u, anyOffline) {
      DeleteUnassignedKeeps(completed, u, anyOffline, a);
    } else {
      if a.assignedTo.Some? {
        DeleteUnassignedKeeps(completed, u, anyOffline, a.(status := Completed));
      }
      if a in Resolved(items, u, anyOffline) {
        DeleteUnassignedMembers(completed, u, anyOffline, a);
        CompleteAssignedMembers(items, u, anyOffline, a);
      }
    }
  }

  /** Resolving one server's items leaves another's open ones open. */
  lemma ResolvedKeepsOthers(items: seq<ActionItem>, u: Uuid, anyOffline: bool, v: Uuid)
    requires v != u
    ensures HasOpenItem(Resolved(items, u, anyOffline), v) <==> HasOpenItem(items, v)
  {
    ResolvedHasNoOpenItem(items, u, anyOffline, v);
    if a :| a in items && IsOpenOffline(a, v, false) {
      ResolvedFate(items, u, anyOffline, a);
    }
  }

  lemma ResolvedTwice(items: seq<ActionItem>, u: Uuid, v: Uuid)
    ensures var left := Resolved(Resolved(items, u, false), u, true);
            if u == v then !HasOpenItem(left, u) else (HasOpenItem(left, v) <==> HasOpenItem(items, v))
  {
    if u == v {
      ResolvedHasNoOpenItem(Resolved(items, u, false), u, true, v);
    } else {
      ResolvedKeepsOthers(items, u, false, v);
      ResolvedKeepsOthers(Resolved(items, u, false), u, true, v);
    }
  }

  /** Raising opens an unclaimed item of the server, and opens or closes none of any other. */
  lemma RaisedOpensItsOwn(items: seq<ActionItem>, u: Uuid, client: nat, v: Uuid)
    ensures HasOpenItem(Raised(items, u, client), u)
    ensures v != u ==> (HasOpenItem(Raised(items, u, client), v) <==> HasOpenItem(items, v))
  {
    var raised, found := Raised(items, u, client), FindOfflineItem(items, u, client);
    var k := if found.Some? then found.value else |items|;
    assert raised[k] in raised && IsOpenOffline(raised[k], u, false);
    if v != u {
      if a :| a in raised && IsOpenOffline(a, v, false) {
        assert a in items;
      }
      if a :| a in items && IsOpenOffline(a, v, false) {
        var i :| 0 <= i < |items| && items[i] == a;
        assert raised[i] == a;
      }
    }
  }

  // ---- the parts no monitoring step touches ----

  /** Ownership, flags and tokens are as they were; only `last_seen_at` of an agent may have moved. */
  ghost predicate SameRegistry(a: Registry, b: Registry) {
    && b.tokens == a.tokens
    && b.servers.Keys == a.servers.Keys
    && (forall u :: u in a.servers ==> SameIdentity(a.servers[u], b.servers[u]))
    && |b.agents| == |a.agents|
    && (forall i :: 0 <= i < |a.agents| ==> b.agents[i] == a.agents[i].(lastSeen := b.agents[i].lastSeen))
  }

  predicate SameIdentity(s: Server, t: Server) {
    t.agentId == s.agentId && t.agentDeleted == s.agentDeleted && t.clientId == s.clientId
  }

  // ---- the folds of a heartbeat ----

  /** One more listing is answered by the one list or the other, or by neither if it is empty. */
  lemma {:induction false} AnswerStep(reg: Registry, agent: nat, front: seq<string>, last: string)
    ensures AcceptedOf(reg, agent, front + [last])
         == AcceptedOf(reg, agent, front) + if Accepts(reg, agent, last) then [last] else []
    ensures RevokedOf(reg, agent, front + [last])
         == RevokedOf(reg, agent, front) + if Accepts(reg, agent, last) || IsEmptyUuid(last) then [] else [last]
  {
    assert (front + [last])[..|front|] == front;
  }

  function Times(n: nat, x: nat): nat {
    if n == 0 then 0 else Times(n - 1, x) + x
  }

  lemma CreditedEffect(w: World, v: Uuid, gain: nat)
    requires v in w.reg.servers
    ensures var after := Credited(w, v, gain);
            && SameRegistry(w.reg, after.reg)
            && after == w.(reg := w.reg.(servers := w.reg.servers[v := after.reg.servers[v]]))
            && after.reg.servers[v] == w.reg.servers[v].(
                 onlineSeconds := w.reg.servers[v].onlineSeconds
                                  + if w.reg.servers[v].status == Online then gain else 0)
  {
    assert w.reg.servers[v := w.reg.servers[v]] == w.reg.servers;
  }

  lemma SameRegistryTransitive(a: Registry, b: Registry, c: Registry)
    requires SameRegistry(a, b) && SameRegistry(b, c)
    ensures SameRegistry(a, c)
  {
  }

  lemma {:induction false} CreditedAllFrame(w: World, us: seq<Uuid>, gain: nat)
    requires forall v :: v in us ==> v in w.reg.servers
    ensures var after := CreditedAll(w, us, gain);
            SameRegistry(w.reg, after.reg) && after == w.(reg := w.reg.(servers := after.reg.servers))
  {
    var n := |us|;
    if n > 0 {
      CreditedAllFrame(w, us[..n - 1], gain);
      var mid := CreditedAll(w, us[..n - 1], gain);
      CreditedEffect(mid, us[n - 1], gain);
      SameRegistryTransitive(w.reg, mid.reg, CreditedAll(w, us, gain).reg);
    }
  }

  /** What the listings of `u` add up to. */
  function CreditFor(us: seq<Uuid>, u: Uuid, gain: nat): nat {
    var n := |us|;
    if n == 0 then 0 else CreditFor(us[..n - 1], u, gain) + if us[n - 1] == u then gain else 0
  }

  lemma {:induction false} CreditForCounts(us: seq<Uuid>, u: Uuid, gain: nat)
    ensures CreditFor(us, u, gain) == Times(multiset(us)[u], gain)
  {
    var n := |us|;
    if n > 0 {
      CreditForCounts(us[..n - 1], u, gain);
      assert us == us[..n - 1] + [us[n - 1]];
    }
  }

  /** Each listing of an online server credits the gain once more; nothing else of its row moves. */
  lemma {:induction false} CreditedAllEffect(w: World, us: seq<Uuid>, gain: nat, u: Uuid)
    requires (forall v :: v in us ==> v in w.reg.servers) && u in w.reg.servers
    ensures var s := w.reg.servers[u];
            CreditedAll(w, us, gain).reg.servers[u]
            == if s.status == Online then s.(onlineSeconds := s.onlineSeconds + CreditFor(us, u, gain)) else s
  {
    var n := |us|;
    if n > 0 {
      CreditedAllEffect(w, us[..n - 1], gain, u);
      CreditedEffect(CreditedAll(w, us[..n - 1], gain), us[n - 1], gain);
    }
  }

  /** Serving one server: it ends online, logged if it was not. */
  lemma {:induction false} ServedRow(w: World, v: Uuid, now: Time, raw: int, u: Uuid)
    requires v in w.reg.servers && u in w.reg.servers
    ensures var after := Served(w, v, now, raw);
            && after.reg.servers[u] == (if u == v then w.reg.servers[u].(status := Online) else w.reg.servers[u])
            && LogOf(after.activities, u)
               == LogOf(w.activities, u) + (if u == v && w.reg.servers[u].status != Online then [Online] else [])
  {
    LogGrows(w.activities, Transition(v, Online), u);
  }

  /** Serving one server touches no ownership and schedules its check. */
  lemma ServedFrame(w: World, v: Uuid, now: Time, raw: int)
    requires v in w.reg.servers
    ensures var after := Served(w, v, now, raw);
            && SameRegistry(w.reg, after.reg) && after.reg.agents == w.reg.agents
            && after.jobs == w.jobs + multiset{Job(v, StampOf(now) + Threshold(raw) + 2)}
  {
  }

  /** Serving one server leaves it no open item, and the others theirs. */
  lemma ServedItems(w: World, v: Uuid, now: Time, raw: int, u: Uuid)
    requires v in w.reg.servers
    ensures var items := Served(w, v, now, raw).items;
            if u == v then !HasOpenItem(items, u) else (HasOpenItem(items, u) <==> HasOpenItem(w.items, u))
  {
    if u == v {
      ResolvedHasNoOpenItem(w.items, v, false, u);
    } else {
      ResolvedKeepsOthers(w.items, v, false, u);
    }
  }

  lemma {:induction false} ServedAllFrame(w: World, us: seq<Uuid>, now: Time, raw: int)
    requires forall v :: v in us ==> v in w.reg.servers
    ensures var after := ServedAll(w, us, now, raw);
            SameRegistry(w.reg, after.reg) && after.reg.agents == w.reg.agents && w.jobs <= after.jobs
  {
    var n := |us|;
    if n > 0 {
      ServedAllFrame(w, us[..n - 1], now, raw);
      var mid := ServedAll(w, us[..n - 1], now, raw);
      ServedFrame(mid, us[n - 1], now, raw);
      SameRegistryTransitive(w.reg, mid.reg, ServedAll(w, us, now, raw).reg);
    }
  }

  /** Every server served ends online; the other rows are as they were. */
  lemma {:induction false} ServedAllRows(w: World, us: seq<Uuid>, now: Time, raw: int, u: Uuid)
    requires (forall v :: v in us ==> v in w.reg.servers) && u in w.reg.servers
    ensures var after := ServedAll(w, us, now, raw);
            after.reg.servers[u] == (if u in us then w.reg.servers[u].(status := Online) else w.reg.servers[u])
  {
    var n := |us|;
    if n > 0 {
      ServedAllRows(w, us[..n - 1], now, raw, u);
      ServedRow(ServedAll(w, us[..n - 1], now, raw), us[n - 1], now, raw, u);
      assert us == us[..n - 1] + [us[n - 1]];
    }
  }

  lemma AddOnce<T>(base: seq<T>, middle: seq<T>, after: seq<T>, x: T, first: bool, second: bool)
    requires !(first && second)
    requires middle == base + (if first then [x] else []) && after == middle + (if second then [x] else [])
    ensures after == base + (if first || second then [x] else [])
  {
  }

  /** Every server served is logged once if it was not online. */
  lemma {:induction false} ServedAllLog(w: World, us: seq<Uuid>, now: Time, raw: int, u: Uuid)
    requires (forall v :: v in us ==> v in w.reg.servers) && u in w.reg.servers
    ensures LogOf(ServedAll(w, us, now, raw).activities, u)
         == LogOf(w.activities, u) + (if u in us && w.reg.servers[u].status != Online then [Online] else [])
  {
    var n := |us|;
    if n > 0 {
      var front, last := us[..n - 1], us[n - 1];
      ServedAllLog(w, front, now, raw, u);
      ServedAllRows(w, front, now, raw, u);
      var mid := ServedAll(w, front, now, raw);
      ServedRow(mid, last, now, raw, u);
      assert u in us <==> u in front || u == last by {
        assert us == front + [last];
      }
      var wasOff := w.reg.servers[u].status != Online;
      AddOnce(LogOf(w.activities, u), LogOf(mid.activities, u), LogOf(ServedAll(w, us, now, raw).activities, u),
              Online, u in front && wasOff, u !in front && u == last && wasOff);
    }
  }

  /** Every server served has its check scheduled. */
  lemma {:induction false} ServedAllJobs(w: World, us: seq<Uuid>, now: Time, raw: int, u: Uuid)
    requires (forall v :: v in us ==> v in w.reg.servers) && u in us
    ensures Job(u, StampOf(now) + Threshold(raw) + 2) in ServedAll(w, us, now, raw).jobs
  {
    var front, last := us[..|us| - 1], us[|us| - 1];
    if u != last {
      ServedAllJobs(w, front, now, raw, u);
    }
  }

  /** No server served keeps an open item; the others keep theirs. */
  lemma {:induction false} ServedAllItems(w: World, us: seq<Uuid>, now: Time, raw: int, u: Uuid)
    requires (forall v :: v in us ==> v in w.reg.servers) && u in w.reg.servers
    ensures var items := ServedAll(w, us, now, raw).items;
            if u in us then !HasOpenItem(items, u) else (HasOpenItem(items, u) <==> HasOpenItem(w.items, u))
  {
    var n := |us|;
    if n > 0 {
      var front, last := us[..n - 1], us[n - 1];
      ServedAllItems(w, front, now, raw, u);
      ServedItems(ServedAll(w, front, now, raw), last, now, raw, u);
      assert u in us <==> u in front || u == last by {
        assert us == front + [last];
      }
    }
  }

  /** Every server accepted has its check scheduled. */
  lemma BeatenJobs(w: World, agent: nat, accepted: seq<Uuid>, now: Time, raw: int, u: Uuid)
    requires agent < |w.reg.agents| && (forall v :: v in accepted ==> v in w.reg.servers) && u in accepted
    ensures Job(u, StampOf(now) + Threshold(raw) + 2) in Beaten(w, agent, accepted, now, raw).jobs
  {
    var credited := CreditedAll(w, accepted, Gain(w.reg.agents[agent].lastSeen, now, raw));
    ServedAllJobs(Seen(credited, agent, now), accepted, now, raw, u);
  }

  /** One heartbeat, seen from one server. */
  lemma {:induction false} BeatenEffect(w: World, agent: nat, accepted: seq<Uuid>, now: Time, raw: int, u: Uuid)
    requires agent < |w.reg.agents| && (forall v :: v in accepted ==> v in w.reg.servers) && u in w.reg.servers
    ensures var after := Beaten(w, agent, accepted, now, raw);
            && SameRegistry(w.reg, after.reg)
            && after.reg.agents == w.reg.agents[agent := w.reg.agents[agent].(lastSeen := Some(StampOf(now)))]
            && after.reg.servers[u] == w.reg.servers[u].(
                 status := if u in accepted then Online else w.reg.servers[u].status,
                 onlineSeconds := after.reg.servers[u].onlineSeconds)
            && after.reg.servers[u].onlineSeconds
               == w.reg.servers[u].onlineSeconds
                  + (if w.reg.servers[u].status == Online
                     then Times(multiset(accepted)[u], Gain(w.reg.agents[agent].lastSeen, now, raw)) else 0)
            && LogOf(after.activities, u)
               == LogOf(w.activities, u) + (if u in accepted && w.reg.servers[u].status != Online then [Online] else [])
            && (u in accepted ==> Job(u, StampOf(now) + Threshold(raw) + 2) in after.jobs)
            && (if u in accepted then !HasOpenItem(after.items, u)
                  else (HasOpenItem(after.items, u) <==> HasOpenItem(w.items, u)))
            && w.jobs <= after.jobs
  {
    var gain := Gain(w.reg.agents[agent].lastSeen, now, raw);
    CreditedAllFrame(w, accepted, gain);
    CreditedAllEffect(w, accepted, gain, u);
    CreditForCounts(accepted, u, gain);
    var seen := Seen(CreditedAll(w, accepted, gain), agent, now);
    ServedAllFrame(seen, accepted, now, raw);
    ServedAllRows(seen, accepted, now, raw, u);
    ServedAllLog(seen, accepted, now, raw, u);
    ServedAllItems(seen, accepted, now, raw, u);
    if u in accepted {
      BeatenJobs(w, agent, accepted, now, raw, u);
    }
    SameRegistryTransitive(w.reg, seen.reg, ServedAll(seen, accepted, now, raw).reg);
  }

  // ---- the monitor's steps ----

  lemma {:induction false} WentOfflineEffect(w: World, v: Uuid, now: Time, u: Uuid)
    requires v in w.reg.servers && u in w.reg.servers
    ensures var after := WentOffline(w, v, now);
            && SameRegistry(w.reg, after.reg) && after.reg.agents == w.reg.agents
            && after.jobs == w.jobs && after.locks == w.locks
            && (u != v || w.reg.servers[v].status == Offline ==> after.reg.servers[u] == w.reg.servers[u])
            && after.reg.servers[v].status == Offline
            && after.reg.servers[v].onlineSeconds == w.reg.servers[v].onlineSeconds
            && LogOf(after.activities, u)
               == LogOf(w.activities, u) + (if u == v && w.reg.servers[u].status != Offline then [Offline] else [])
            && (u != v ==> (HasOpenItem(after.items, u) <==> HasOpenItem(w.items, u)))
            && (w.reg.servers[v].status != Offline ==> HasOpenItem(after.items, v))
            && (w.reg.servers[v].status == Offline ==> after.items == w.items)
  {
    LogGrows(w.activities, Transition(v, Offline), u);
    RaisedOpensItsOwn(w.items, v, w.reg.servers[v].clientId, u);
  }

  lemma {:induction false} RecoveredEffect(w: World, v: Uuid, u: Uuid)
    requires v in w.reg.servers && u in w.reg.servers
    ensures var after := Recovered(w, v);
            && SameRegistry(w.reg, after.reg) && after.reg.agents == w.reg.agents
            && after.jobs == w.jobs
            && (u != v || w.reg.servers[v].status != Offline ==> after.reg.servers[u] == w.reg.servers[u])
            && after.reg.servers[v].status
               == (if w.reg.servers[v].status == Offline then Online else w.reg.servers[v].status)
            && after.reg.servers[v].onlineSeconds == w.reg.servers[v].onlineSeconds
            && LogOf(after.activities, u)
               == LogOf(w.activities, u) + (if u == v && w.reg.servers[u].status == Offline then [Online] else [])
            && (if u == v then !HasOpenItem(after.items, u)
                  else (HasOpenItem(after.items, u) <==> HasOpenItem(w.items, u)))
  {
    LogGrows(w.activities, Transition(v, Online), u);
    ResolvedTwice(w.items, v, u);
  }
}
