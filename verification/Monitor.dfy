/**
 Health checks and the writers of the offline transition: the monitor job
 (`MonitorServer`, run directly or by `CheckServerOffline`) and the status shown
 on a server's detail page (`ServerData`).
 */
module Monitor {
  import opened Common
  import opened Clock
  import opened Schema
  import opened Database
  import Provisioning

  // ---- thresholds ----

  const DEFAULT_THRESHOLD: int := 15
  const LOCK_SECONDS: nat := 60

  /** `secondsSetting`: milliseconds become seconds, zero becomes the default. */
  function SecondsSetting(raw: int, default': int): int {
    if raw >= 1000 then raw / 1000 else if raw == 0 then default' else raw
  }

  /** The threshold the heartbeat and the monitor pass on. */
  function Threshold(raw: int): int {
    SecondsSetting(raw, DEFAULT_THRESHOLD)
  }

  /** The threshold `computeHealth` works with: it normalizes what it is given once more. */
  function HealthThreshold(seconds: int): nat {
    var t := if seconds >= 1000 then seconds / 1000 else seconds;
    if t < 1 then 15 else t
  }

  /** `computeHealth`: never seen, or last seen more than the threshold ago. */
  predicate IsOffline(lastSeen: Option<Stamp>, seconds: int, now: Time) {
    lastSeen.None? || InstantOf(lastSeen.value) + HealthThreshold(seconds) * MICROS < now
  }

  /** The two normalizations agree exactly when the raw setting is neither negative nor a million or more. */
  lemma ThresholdsAgree(raw: int)
    ensures HealthThreshold(Threshold(raw)) == Threshold(raw) <==> 0 <= raw < 1_000_000
  {
  }

  // ---- action items ----

  const SERVER_OFFLINE: string := "server_offline"

  /** `LIKE '%part%'`. */
  predicate Contains(s: string, part: string) {
    part <= s || (s != "" && Contains(s[1..], part))
  }

  /** The open items one of the resolving statements selects: one type, or every type with `offline` in it. */
  predicate IsOpenOffline(a: ActionItem, u: Uuid, anyOffline: bool) {
    && a.server == Some(u)
    && a.status == Open
    && (a.actionType == SERVER_OFFLINE || (anyOffline && Contains(a.actionType, "offline")))
  }

  function CompleteAssigned(items: seq<ActionItem>, u: Uuid, anyOffline: bool): seq<ActionItem> {
    if items == [] then []
    else
      [if IsOpenOffline(items[0], u, anyOffline) && items[0].assignedTo.Some?
       then items[0].(status := Completed) else items[0]]
      + CompleteAssigned(items[1..], u, anyOffline)
  }

  function DeleteUnassigned(items: seq<ActionItem>, u: Uuid, anyOffline: bool): seq<ActionItem> {
    if items == [] then []
    else
      (if IsOpenOffline(items[0], u, anyOffline) && items[0].assignedTo.None? then [] else [items[0]])
      + DeleteUnassigned(items[1..], u, anyOffline)
  }

  /** Claimed items become completed history, unclaimed ones disappear. */
  function Resolved(items: seq<ActionItem>, u: Uuid, anyOffline: bool): seq<ActionItem> {
    DeleteUnassigned(CompleteAssigned(items, u, anyOffline), u, anyOffline)
  }

  function NextItemId(items: seq<ActionItem>): nat {
    if items == [] then 1
    else
      var rest := NextItemId(items[1..]);
      if items[0].id < rest then rest else items[0].id + 1
  }

  function FindOfflineItem(items: seq<ActionItem>, u: Uuid, client: nat): (found: Option<nat>)
    ensures found.Some? ==> found.value < |items| && items[found.value].server == Some(u)
                            && items[found.value].actionType == SERVER_OFFLINE
  {
    if items == [] then None
    else if items[0].actionType == SERVER_OFFLINE && items[0].server == Some(u) && items[0].client == Some(client)
    then Some(0)
    else
      match FindOfflineItem(items[1..], u, client)
      case None => None
      case Some(i) => Some(i + 1)
  }

  /** `updateOrCreate` of the item that says a server is offline: an old one is reopened and unassigned. */
  function Raised(items: seq<ActionItem>, u: Uuid, client: nat): seq<ActionItem> {
    var found := FindOfflineItem(items, u, client);
    if found.Some? then items[found.value := items[found.value].(status := Open, assignedTo := None)]
    else items + [ActionItem(NextItemId(items), SERVER_OFFLINE, Some(u), Some(client), Open, None)]
  }

  // ---- the transitions ----

  /** The offline transition, written once per change of status. */
  function WentOffline(w: World, u: Uuid, now: Time): World
    requires u in w.reg.servers
  {
    var s := w.reg.servers[u];
    if s.status == Offline then w
    else
      w.(reg := w.reg.(servers := w.reg.servers[u := s.(status := Offline, wentOfflineAt := Some(StampOf(now)))]),
         activities := w.activities + [Transition(u, Offline)],
         items := Raised(w.items, u, s.clientId))
  }

  /** The monitor's recovery: only an offline server changes, but items are resolved in any case. */
  function Recovered(w: World, u: Uuid): World
    requires u in w.reg.servers
  {
    var s := w.reg.servers[u];
    var back :=
      if s.status != Offline then w
      else
        w.(reg := w.reg.(servers := w.reg.servers[u := s.(status := Online, wentOfflineAt := None)]),
           activities := w.activities + [Transition(u, Online)]);
    back.(items := Resolved(Resolved(w.items, u, false), u, true))
  }

  /** Decommissioned servers are out of the lifecycle. */
  predicate Decommissioned(s: Server) {
    s.agentDeleted || s.status == Archived
  }

  function Monitored(w: World, u: Uuid, now: Time, raw: int): World {
    if u !in w.reg.servers || Decommissioned(w.reg.servers[u]) then w
    else
      var agent := Provisioning.ActiveAgent(w.reg, w.reg.servers[u]);
      if agent.None? then w
      else if IsOffline(w.reg.agents[agent.value].lastSeen, Threshold(raw), now) then WentOffline(w, u, now)
      else Recovered(w, u)
  }

  /** A delayed job runs only once it is available, and only once. */
  function Checked(w: World, job: Job, now: Time, raw: int): World {
    if job in w.jobs && job.due * MICROS <= now then Monitored(w.(jobs := w.jobs - multiset{job}), job.server, now, raw)
    else w
  }

  /** A cache lock is free when it was never taken or has run out. */
  predicate LockFree(w: World, u: Uuid, now: Time) {
    u !in w.locks || w.locks[u] <= StampOf(now)
  }

  /** The detail page: what it writes, and the status it shows. */
  function DetailRead(w: World, u: Uuid, now: Time, raw: int): (World, Status)
    requires u in w.reg.servers
  {
    var s := w.reg.servers[u];
    if s.status == Archived then (w, Archived)
    else if s.status == AgentUninstalled || s.agentDeleted then (w, AgentUninstalled)
    else
      var agent := Provisioning.ActiveAgent(w.reg, s);
      if agent.None? || s.status == WaitingForFirstHeartbeat then (w, s.status)
      else if IsOffline(w.reg.agents[agent.value].lastSeen, Threshold(raw), now) then
        if s.status != Offline && LockFree(w, u, now) then
          (WentOffline(w.(locks := w.locks[u := StampOf(now) + LOCK_SECONDS]), u, now), Offline)
        else (w, Offline)
      else (w, if s.status == Offline then Online else s.status)
  }

  // ---- the jobs ----

  method HandleOfflineTransition(db: Tables, u: Uuid, now: Time)
    requires u in db.servers
    modifies db
    ensures db.Snapshot() == WentOffline(old(db.Snapshot()), u, now)
  {
    var statusChanged := db.servers[u].status != Offline;
    if statusChanged {
      db.servers := db.servers[u := db.servers[u].(status := Offline, wentOfflineAt := Some(StampOf(now)))];
      db.activities := db.activities + [Transition(u, Offline)];
      db.items := Raised(db.items, u, db.servers[u].clientId);
    }
  }

  method HandleOnlineRecovery(db: Tables, u: Uuid)
    requires u in db.servers
    modifies db
    ensures db.Snapshot() == Recovered(old(db.Snapshot()), u)
  {
    if db.servers[u].status == Offline {
      db.servers := db.servers[u := db.servers[u].(status := Online, wentOfflineAt := None)];
      db.activities := db.activities + [Transition(u, Online)];
    }
    db.items := CompleteAssigned(db.items, u, false);
    db.items := DeleteUnassigned(db.items, u, false);
    db.items := CompleteAssigned(db.items, u, true);
    db.items := DeleteUnassigned(db.items, u, true);
  }

  /** `MonitorServer::handle`. */
  method MonitorServer(db: Tables, u: Uuid, now: Time, raw: int)
    modifies db
    ensures db.Snapshot() == Monitored(old(db.Snapshot()), u, now, raw)
  {
    if u !in db.servers {
      return;
    }
    if db.servers[u].agentDeleted || db.servers[u].status == Archived {
      return;
    }
    var agent := Provisioning.ActiveAgent(db.Reg(), db.servers[u]);
    if agent.None? {
      return;
    }
    var lastSeen := db.agents[agent.value].lastSeen;
    var thresholdSec := if raw >= 1000 then raw / 1000 else if raw != 0 then raw else 15;
    if IsOffline(lastSeen, thresholdSec, now) {
      HandleOfflineTransition(db, u, now);
    } else {
      HandleOnlineRecovery(db, u);
    }
  }

  /** `CheckServerOffline::handle`, when the queue hands the job out. */
  method CheckServerOffline(db: Tables, job: Job, now: Time, raw: int)
    requires job in db.jobs && job.due * MICROS <= now
    modifies db
    ensures db.Snapshot() == Checked(old(db.Snapshot()), job, now, raw)
  {
    db.jobs := db.jobs - multiset{job};
    MonitorServer(db, job.server, now, raw);
  }

  /** The `status` closure of `ServerData`. */
  method ShowStatus(db: Tables, u: Uuid, now: Time, raw: int) returns (shown: Status)
    requires u in db.servers
    modifies db
    ensures (db.Snapshot(), shown) == DetailRead(old(db.Snapshot()), u, now, raw)
  {
    var server := db.servers[u];
    if server.status == Archived {
      return Archived;
    }
    if server.status == AgentUninstalled || server.agentDeleted {
      return AgentUninstalled;
    }
    var agent := Provisioning.ActiveAgent(db.Reg(), server);
    if agent.None? {
      return server.status;
    }
    if server.status == WaitingForFirstHeartbeat {
      return WaitingForFirstHeartbeat;
    }
    var offlineThreshold := if raw >= 1000 then raw / 1000 else if raw != 0 then raw else 15;
    var isOffline := IsOffline(db.agents[agent.value].lastSeen, offlineThreshold, now);
    var wasOffline := server.status == Offline;
    if isOffline && !wasOffline {
      var acquired := u !in db.locks || db.locks[u] <= StampOf(now);
      if acquired {
        db.locks := db.locks[u := StampOf(now) + LOCK_SECONDS];
        db.servers := db.servers[u := server.(status := Offline, wentOfflineAt := Some(StampOf(now)))];
        db.activities := db.activities + [Transition(u, Offline)];
        db.items := Raised(db.items, u, server.clientId);
      }
      return Offline;
    }
    if !isOffline && wasOffline {
      return Online;
    }
    shown := if isOffline then Offline else server.status;
  }
}
