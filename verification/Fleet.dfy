/**
 The whole system as a state machine. A tick is one monitoring step by an agent,
 a job or a reader; a change is one provisioning step. An event is either of
 them, at an instant and under the threshold setting of that moment.
 */
module Fleet {
  import opened Common
  import opened Clock
  import opened Schema
  import opened Database
  import opened Monitor
  import opened Heartbeat
  import opened Effects
  import opened ProvisioningLaws
  import Provisioning

  datatype Tick =
    | Beat(agent: nat, listed: seq<string>)
    | LegacyBeat(agent: nat, server: Uuid)
    | RunMonitor(server: Uuid)
    | RunCheck(job: Job)
    | ReadDetail(server: Uuid)

  datatype Change =
    | CreateServer(server: Uuid, client: nat)
    | GenerateToken(server: Uuid, raw: string)
    | RegenerateToken(server: Uuid, raw: string)
    | ForceReinstall(server: Uuid, raw: string)
    | Register(raw: string, metadata: Provisioning.Metadata)
    | CheckExpiration(server: Uuid)
    | CleanupTokens

  datatype Action = Monitoring(tick: Tick) | Provision(change: Change)

  datatype Event = Event(now: Time, raw: int, action: Action)

  // ---- monitoring steps ----

  function Ticked(w: World, t: Tick, now: Time, raw: int): World {
    match t
    case Beat(agent, listed) => Aggregated(w, agent, listed, now, raw).0
    case LegacyBeat(agent, u) => Legacy(w, agent, u, now, raw).0
    case RunMonitor(u) => Monitored(w, u, now, raw)
    case RunCheck(job) => Checked(w, job, now, raw)
    case ReadDetail(u) => if u in w.reg.servers then DetailRead(w, u, now, raw).0 else w
  }

  /** The servers a tick accepts a heartbeat for. */
  function AcceptedBy(reg: Registry, t: Tick): (accepted: seq<Uuid>)
    ensures forall u :: u in accepted ==> u in reg.servers && !Decommissioned(reg.servers[u])
  {
    match t
    case Beat(agent, listed) => if Authenticates(reg, agent) then AcceptedOf(reg, agent, listed) else []
    case LegacyBeat(agent, u) =>
      if Authenticates(reg, agent) && u in reg.servers && reg.servers[u].agentId == Some(agent)
         && !Decommissioned(reg.servers[u])
      then [u] else []
    case _ => []
  }

  /** The agent a tick marks as seen. */
  function SeenBy(reg: Registry, t: Tick): (agent: Option<nat>)
    ensures agent.Some? ==> agent.value < |reg.agents| && reg.agents[agent.value].status == Active
  {
    match t
    case Beat(agent, listed) => if Authenticates(reg, agent) then Some(agent) else None
    case LegacyBeat(agent, u) => if AcceptedBy(reg, t) != [] then Some(agent) else None
    case _ => None
  }

  /** The server whose health a tick checks, if the tick is a monitor run. */
  function CheckedBy(w: World, t: Tick, now: Time): Option<Uuid> {
    match t
    case RunMonitor(u) => Some(u)
    case RunCheck(job) => if job in w.jobs && job.due * MICROS <= now then Some(job.server) else None
    case _ => None
  }

  /** A health check looks at servers in service whose owner is active. */
  predicate Watched(reg: Registry, u: Uuid) {
    u in reg.servers && !Decommissioned(reg.servers[u]) && Provisioning.ActiveAgent(reg, reg.servers[u]).Some?
  }

  predicate Overdue(reg: Registry, u: Uuid, now: Time, raw: int) {
    IsOffline(OwnerSeen(reg, u), Threshold(raw), now)
  }

  /** A detail page writes the offline transition only in these states, and once per lock. */
  predicate DetailWrites(w: World, u: Uuid, now: Time, raw: int) {
    && Watched(w.reg, u) && Overdue(w.reg, u, now, raw)
    && w.reg.servers[u].status !in {AgentUninstalled, WaitingForFirstHeartbeat}
    && LockFree(w, u, now)
  }

  /** The status of a server after a tick, cause by cause. */
  function StatusAfter(w: World, t: Tick, now: Time, raw: int, u: Uuid): Status
    requires u in w.reg.servers
  {
    var status := w.reg.servers[u].status;
    if u in AcceptedBy(w.reg, t) then Online
    else if CheckedBy(w, t, now) == Some(u) && Watched(w.reg, u) then
      if Overdue(w.reg, u, now, raw) then Offline
      else if status == Offline then Online
      else status
    else if t == ReadDetail(u) && DetailWrites(w, u, now, raw) then Offline
    else status
  }

  /** The online seconds a tick adds: the gap since the owner was last seen, once per accepted listing. */
  function Earned(w: World, t: Tick, now: Time, raw: int, u: Uuid): nat
    requires u in w.reg.servers
  {
    if w.reg.servers[u].status == Online
    then Times(multiset(AcceptedBy(w.reg, t))[u], Gain(OwnerSeen(w.reg, u), now, raw)) else 0
  }

  /** The board agrees with the status: no open item for an online server, one for an offline one. */
  ghost predicate ItemsAgree(w: World, u: Uuid)
    requires u in w.reg.servers
  {
    && (w.reg.servers[u].status == Online ==> !HasOpenItem(w.items, u))
    && (w.reg.servers[u].status == Offline ==> HasOpenItem(w.items, u))
  }

  /** What one tick did to server `u`. */
  ghost predicate TickRow(w: World, after: World, u: Uuid, status: Status, earned: nat) {
    && u in w.reg.servers && u in after.reg.servers
    && after.reg.servers[u].status == status
    && after.reg.servers[u].onlineSeconds == w.reg.servers[u].onlineSeconds + earned
    && (status == w.reg.servers[u].status ==>
          after.reg.servers[u] == w.reg.servers[u].(onlineSeconds := after.reg.servers[u].onlineSeconds))
    && LogOf(after.activities, u)
       == LogOf(w.activities, u) + (if status != w.reg.servers[u].status then [status] else [])
    && (ItemsAgree(w, u) ==> ItemsAgree(after, u))
  }

  lemma BeatenRow(w: World, agent: nat, accepted: seq<Uuid>, now: Time, raw: int, u: Uuid)
    requires agent < |w.reg.agents|
             && (forall v :: v in accepted ==> v in w.reg.servers && w.reg.servers[v].agentId == Some(agent))
    requires u in w.reg.servers
    ensures TickRow(w, Beaten(w, agent, accepted, now, raw), u,
                    if u in accepted then Online else w.reg.servers[u].status,
                    if w.reg.servers[u].status == Online
                    then Times(multiset(accepted)[u], Gain(OwnerSeen(w.reg, u), now, raw)) else 0)
  {
    BeatenEffect(w, agent, accepted, now, raw, u);
  }

  lemma WentOfflineRow(w: World, v: Uuid, now: Time, u: Uuid)
    requires u in w.reg.servers && v in w.reg.servers
    ensures var after := WentOffline(w, v, now);
            && SameRegistry(w.reg, after.reg) && after.reg.agents == w.reg.agents && after.jobs == w.jobs
            && (u != v ==> after.reg.servers[u] == w.reg.servers[u])
            && TickRow(w, after, u, if u == v then Offline else w.reg.servers[u].status, 0)
  {
    WentOfflineEffect(w, v, now, u);
  }

  lemma RecoveredRow(w: World, v: Uuid, u: Uuid)
    requires u in w.reg.servers && v in w.reg.servers
    ensures var after, status := Recovered(w, v), w.reg.servers[u].status;
            && SameRegistry(w.reg, after.reg) && after.reg.agents == w.reg.agents && after.jobs == w.jobs
            && (u != v ==> after.reg.servers[u] == w.reg.servers[u])
            && TickRow(w, after, u, if u == v && status == Offline then Online else status, 0)
  {
    RecoveredEffect(w, v, u);
  }

  lemma MonitoredRow(w: World, v: Uuid, now: Time, raw: int, u: Uuid)
    requires u in w.reg.servers
    ensures var after, status := Monitored(w, v, now, raw), w.reg.servers[u].status;
            && SameRegistry(w.reg, after.reg) && after.reg.agents == w.reg.agents && after.jobs == w.jobs
            && (u != v || !Watched(w.reg, u) ==> after.reg.servers[u] == w.reg.servers[u])
            && TickRow(w, after, u,
                       if u == v && Watched(w.reg, u) then
                         if Overdue(w.reg, u, now, raw) then Offline else if status == Offline then Online else status
                       else status, 0)
  {
    if Watched(w.reg, v) {
      if Overdue(w.reg, v, now, raw) {
        WentOfflineRow(w, v, now, u);
      } else {
        RecoveredRow(w, v, u);
      }
    }
  }

  /** A detail page either takes the lock and writes the offline transition, or writes nothing. */
  lemma DetailWritesTheTransition(w: World, v: Uuid, now: Time, raw: int)
    requires v in w.reg.servers
    ensures DetailRead(w, v, now, raw).0
         == if DetailWrites(w, v, now, raw) && w.reg.servers[v].status != Offline
            then WentOffline(w.(locks := w.locks[v := StampOf(now) + LOCK_SECONDS]), v, now) else w
  {
  }

  lemma DetailRow(w: World, v: Uuid, now: Time, raw: int, u: Uuid)
    requires u in w.reg.servers && v in w.reg.servers
    ensures var after := DetailRead(w, v, now, raw).0;
            && SameRegistry(w.reg, after.reg) && after.reg.agents == w.reg.agents && after.jobs == w.jobs
            && (u != v || !Watched(w.reg, u) ==> after.reg.servers[u] == w.reg.servers[u])
            && TickRow(w, after, u,
                       if u == v && DetailWrites(w, u, now, raw) then Offline else w.reg.servers[u].status, 0)
  {
    DetailWritesTheTransition(w, v, now, raw);
    if DetailWrites(w, v, now, raw) && w.reg.servers[v].status != Offline {
      WentOfflineRow(w.(locks := w.locks[v := StampOf(now) + LOCK_SECONDS]), v, now, u);
    }
  }

  lemma BeatTick(w: World, agent: nat, listed: seq<string>, now: Time, raw: int, u: Uuid)
    requires u in w.reg.servers
    ensures TickRow(w, Ticked(w, Beat(agent, listed), now, raw), u,
                    StatusAfter(w, Beat(agent, listed), now, raw, u), Earned(w, Beat(agent, listed), now, raw, u))
  {
    if Authenticates(w.reg, agent) {
      BeatenRow(w, agent, AcceptedOf(w.reg, agent, listed), now, raw, u);
    }
  }

  lemma LegacyTick(w: World, agent: nat, v: Uuid, now: Time, raw: int, u: Uuid)
    requires u in w.reg.servers
    ensures TickRow(w, Ticked(w, LegacyBeat(agent, v), now, raw), u,
                    StatusAfter(w, LegacyBeat(agent, v), now, raw, u), Earned(w, LegacyBeat(agent, v), now, raw, u))
  {
    if AcceptedBy(w.reg, LegacyBeat(agent, v)) != [] {
      BeatenRow(w, agent, [v], now, raw, u);
    }
  }

  lemma JobsDoNotMatter(w: World, other: World, after: World, u: Uuid, status: Status)
    requires other == w.(jobs := other.jobs) && TickRow(other, after, u, status, 0)
    ensures TickRow(w, after, u, status, 0)
  {
  }

  lemma CheckTick(w: World, job: Job, now: Time, raw: int, u: Uuid)
    requires u in w.reg.servers
    ensures TickRow(w, Ticked(w, RunCheck(job), now, raw), u, StatusAfter(w, RunCheck(job), now, raw, u), 0)
  {
    if job in w.jobs && job.due * MICROS <= now {
      var consumed := w.(jobs := w.jobs - multiset{job});
      MonitoredRow(consumed, job.server, now, raw, u);
      JobsDoNotMatter(w, consumed, Checked(w, job, now, raw), u, StatusAfter(w, RunCheck(job), now, raw, u));
    }
  }

  /** Every tick, seen from one server: its status, its log, its online time and its open items. */
  lemma TickEffect(w: World, t: Tick, now: Time, raw: int, u: Uuid)
    requires u in w.reg.servers
    ensures TickRow(w, Ticked(w, t, now, raw), u, StatusAfter(w, t, now, raw, u), Earned(w, t, now, raw, u))
  {
    match t
    case Beat(agent, listed) => BeatTick(w, agent, listed, now, raw, u);
    case LegacyBeat(agent, v) => LegacyTick(w, agent, v, now, raw, u);
    case RunMonitor(v) => MonitoredRow(w, v, now, raw, u);
    case RunCheck(job) => CheckTick(w, job, now, raw, u);
    case ReadDetail(v) =>
      if v in w.reg.servers {
        DetailRow(w, v, now, raw, u);
      }
  }

  // ---- what a tick does to the registry and the queue ----

  lemma BeatenRegistry(w: World, agent: nat, accepted: seq<Uuid>, now: Time, raw: int)
    requires agent < |w.reg.agents| && forall v :: v in accepted ==> v in w.reg.servers
    ensures var after := Beaten(w, agent, accepted, now, raw);
            && SameRegistry(w.reg, after.reg)
            && after.reg.agents == w.reg.agents[agent := w.reg.agents[agent].(lastSeen := Some(StampOf(now)))]
            && w.jobs <= after.jobs
  {
    var gain := Gain(w.reg.agents[agent].lastSeen, now, raw);
    CreditedAllFrame(w, accepted, gain);
    var seen := Seen(CreditedAll(w, accepted, gain), agent, now);
    ServedAllFrame(seen, accepted, now, raw);
    SameRegistryTransitive(w.reg, seen.reg, ServedAll(seen, accepted, now, raw).reg);
  }

  /** The agent rows after a tick: the agent that beat is seen now, the others are as they were. */
  function AgentsAfter(reg: Registry, t: Tick, now: Time): seq<Agent> {
    var agent := SeenBy(reg, t);
    if agent.Some? then reg.agents[agent.value := reg.agents[agent.value].(lastSeen := Some(StampOf(now)))]
    else reg.agents
  }

  /** No tick touches ownership, flags or tokens. */
  lemma TickRegistry(w: World, t: Tick, now: Time, raw: int)
    ensures var after := Ticked(w, t, now, raw);
            SameRegistry(w.reg, after.reg) && after.reg.agents == AgentsAfter(w.reg, t, now)
  {
    match t
    case Beat(agent, listed) =>
      if Authenticates(w.reg, agent) {
        BeatenRegistry(w, agent, AcceptedOf(w.reg, agent, listed), now, raw);
      }
    case LegacyBeat(agent, v) =>
      if AcceptedBy(w.reg, t) != [] {
        BeatenRegistry(w, agent, [v], now, raw);
      }
    case RunMonitor(v) => MonitoredRegistry(w, v, now, raw);
    case RunCheck(job) => MonitoredRegistry(w.(jobs := w.jobs - multiset{job}), job.server, now, raw);
    case ReadDetail(v) =>
      if v in w.reg.servers { DetailRegistry(w, v, now, raw); }
  }

  lemma MonitoredRegistry(w: World, v: Uuid, now: Time, raw: int)
    ensures var after := Monitored(w, v, now, raw);
            SameRegistry(w.reg, after.reg) && after.reg.agents == w.reg.agents && after.jobs == w.jobs
  {
    if v in w.reg.servers {
      MonitoredRow(w, v, now, raw, v);
    }
  }

  lemma DetailRegistry(w: World, v: Uuid, now: Time, raw: int)
    requires v in w.reg.servers
    ensures var after := DetailRead(w, v, now, raw).0;
            SameRegistry(w.reg, after.reg) && after.reg.agents == w.reg.agents && after.jobs == w.jobs
  {
    DetailRow(w, v, now, raw, v);
  }

  // ---- provisioning steps ----

  /** Everything a registry reached by provisioning satisfies. */
  ghost predicate RegOk(reg: Registry) {
    Ownership(reg.servers, reg.agents) && TokensOk(reg)
  }

  /** The raw token a change would issue. */
  function IssuedRaw(c: Change): Option<string> {
    match c
    case GenerateToken(_, raw) => Some(raw)
    case RegenerateToken(_, raw) => Some(raw)
    case ForceReinstall(_, raw) => Some(raw)
    case _ => None
  }

  /** A request that names no existing server is answered 404 and changes nothing. */
  ghost function Changed(reg: Registry, c: Change, now: Time): Registry
    requires RegOk(reg)
  {
    match c
    case CreateServer(u, client) =>
      if u in reg.servers then reg
      else reg.(servers := reg.servers[u := Server(client, None, PendingInstallation, false, 0, None)])
    case GenerateToken(u, raw) => if u in reg.servers then Provisioning.Generate(reg, u, raw, now).0 else reg
    case RegenerateToken(u, raw) => if u in reg.servers then Provisioning.Regenerate(reg, u, raw, now).0 else reg
    case ForceReinstall(u, raw) => if u in reg.servers then Provisioning.ForceReinstall(reg, u, raw, now).0 else reg
    case Register(raw, m) => Provisioning.Register(reg, raw, m, now).0
    case CheckExpiration(u) => if u in reg.servers then Provisioning.CheckExpiration(reg, u, now) else reg
    case CleanupTokens => reg.(tokens := Provisioning.Cleaned(reg.tokens, now))
  }

  /**
   What a change can do to a server's row: it gains no time, reaches no state
   past the first heartbeat, and moves only to wait for it.
   */
  ghost predicate RowAfterChange(servers: map<Uuid, Server>, u: Uuid, s: Server) {
    if u in servers then
      var before := servers[u];
      && s.onlineSeconds == before.onlineSeconds && s.wentOfflineAt == before.wentOfflineAt
      && s.clientId == before.clientId
      && (s.status == before.status
            || s.status in {PendingInstallation, WaitingForInstallation, WaitingForFirstHeartbeat})
      && (s.agentDeleted ==> before.agentDeleted)
      && (s.agentId == before.agentId || s.status == WaitingForFirstHeartbeat)
    else
      && s.wentOfflineAt == None && s.onlineSeconds == 0
      && s.status == PendingInstallation && !s.agentDeleted && s.agentId == None
  }

  lemma AttachedRow(servers: map<Uuid, Server>, agents: seq<Agent>, v: Uuid, installation: string, u: Uuid)
    requires OwnersExist(servers, agents) && v in servers
    ensures var after := Provisioning.Attached(servers, agents, v, installation).0;
            after.Keys == servers.Keys && (u in after ==> RowAfterChange(servers, u, after[u]))
  {
  }

  lemma RegisterRow(reg: Registry, raw: string, m: Provisioning.Metadata, now: Time, u: Uuid)
    requires RegOk(reg)
    ensures var after := Provisioning.Register(reg, raw, m, now).0;
            && after.servers.Keys == reg.servers.Keys
            && (u in after.servers ==> RowAfterChange(reg.servers, u, after.servers[u]))
  {
    var found := Provisioning.FindToken(reg.tokens, raw);
    if found.Some? && m.installation.Some? {
      AttachedRow(reg.servers, reg.agents, reg.tokens[found.value].server, m.installation.value, u);
    }
  }

  ghost predicate OnlyRowsMove(reg: Registry, after: Registry, u: Uuid) {
    && after.agents == reg.agents && reg.servers.Keys <= after.servers.Keys
    && (u in after.servers ==> RowAfterChange(reg.servers, u, after.servers[u]))
    && (u in reg.servers ==> after.servers[u].agentId == reg.servers[u].agentId)
  }

  lemma GenerateRow(reg: Registry, v: Uuid, raw: string, now: Time, u: Uuid)
    requires v in reg.servers
    ensures OnlyRowsMove(reg, Provisioning.Generate(reg, v, raw, now).0, u)
  {
  }

  lemma RegenerateRow(reg: Registry, v: Uuid, raw: string, now: Time, u: Uuid)
    requires v in reg.servers
    ensures OnlyRowsMove(reg, Provisioning.Regenerate(reg, v, raw, now).0, u)
  {
    GenerateRow(reg.(tokens := Provisioning.RevokedActive(reg.tokens, v, now)), v, raw, now, u);
  }

  lemma ForceReinstallRow(reg: Registry, v: Uuid, raw: string, now: Time, u: Uuid)
    requires v in reg.servers
    ensures OnlyRowsMove(reg, Provisioning.ForceReinstall(reg, v, raw, now).0, u)
  {
  }

  lemma CheckExpirationRow(reg: Registry, v: Uuid, now: Time, u: Uuid)
    requires v in reg.servers
    ensures OnlyRowsMove(reg, Provisioning.CheckExpiration(reg, v, now), u)
  {
  }

  lemma OtherChangeRow(reg: Registry, c: Change, now: Time, u: Uuid)
    requires RegOk(reg) && !c.Register?
    ensures OnlyRowsMove(reg, Changed(reg, c, now), u)
  {
    match c
    case GenerateToken(v, raw) =>
      if v in reg.servers { GenerateRow(reg, v, raw, now, u); }
    case RegenerateToken(v, raw) =>
      if v in reg.servers { RegenerateRow(reg, v, raw, now, u); }
    case ForceReinstall(v, raw) =>
      if v in reg.servers { ForceReinstallRow(reg, v, raw, now, u); }
    case CheckExpiration(v) =>
      if v in reg.servers { CheckExpirationRow(reg, v, now, u); }
    case _ =>
  }

  /** No provisioning step takes a server away, and what it does to a row. */
  lemma ChangeRow(reg: Registry, c: Change, now: Time, u: Uuid)
    requires RegOk(reg)
    ensures var after := Changed(reg, c, now);
            && reg.servers.Keys <= after.servers.Keys
            && (u in after.servers ==> RowAfterChange(reg.servers, u, after.servers[u]))
  {
    if c.Register? {
      RegisterRow(reg, c.raw, c.metadata, now, u);
    } else {
      OtherChangeRow(reg, c, now, u);
    }
  }

  /** Every provisioning step keeps ownership and the token discipline. */
  lemma ChangeKeeps(reg: Registry, c: Change, now: Time)
    requires RegOk(reg) && (IssuedRaw(c).Some? ==> RawIsNew(reg.tokens, IssuedRaw(c).value))
    ensures RegOk(Changed(reg, c, now)) && Advances(reg.tokens, Changed(reg, c, now).tokens)
  {
    match c
    case CreateServer(u, client) =>
      SameOwnersKeep(reg.servers, reg.agents, Changed(reg, c, now).servers, reg.agents);
    case GenerateToken(u, raw) =>
      if u in reg.servers { GenerateKeeps(reg, u, raw, now); }
    case RegenerateToken(u, raw) =>
      if u in reg.servers { RegenerateKeeps(reg, u, raw, now); }
    case ForceReinstall(u, raw) =>
      if u in reg.servers { ForceReinstallKeeps(reg, u, raw, now); }
    case Register(raw, m) => RegisterKeeps(reg, raw, m, now);
    case CheckExpiration(u) =>
      if u in reg.servers { CheckExpirationKeeps(reg, u, now); }
    case CleanupTokens => CleanupKeeps(reg, now);
  }

  lemma TickKeepsRegistry(w: World, t: Tick, now: Time, raw: int)
    requires RegOk(w.reg)
    ensures RegOk(Ticked(w, t, now, raw).reg)
  {
    TickRegistry(w, t, now, raw);
    var after := Ticked(w, t, now, raw).reg;
    SameOwnersKeep(w.reg.servers, w.reg.agents, after.servers, after.agents);
  }

  // ---- runs ----

  /** The raw tokens a list of events would issue. */
  function RawsOf(events: seq<Event>): set<string> {
    set i | 0 <= i < |events| && events[i].action.Provision? && IssuedRaw(events[i].action.change).Some?
      :: IssuedRaw(events[i].action.change).value
  }

  /** Time does not run backwards, and no raw token is drawn twice. */
  ghost predicate WellTimed(events: seq<Event>) {
    forall i, j :: 0 <= i < j < |events| ==> events[i].now <= events[j].now
  }

  ghost predicate FreshRaws(events: seq<Event>) {
    forall i, j :: 0 <= i < j < |events| && events[i].action.Provision? && events[j].action.Provision?
      && IssuedRaw(events[i].action.change).Some?
      ==> IssuedRaw(events[i].action.change) != IssuedRaw(events[j].action.change)
  }

  ghost predicate IsRun(events: seq<Event>) {
    WellTimed(events) && FreshRaws(events)
  }

  ghost function Stepped(w: World, e: Event): World
    requires RegOk(w.reg)
  {
    match e.action
    case Monitoring(t) => Ticked(w, t, e.now, e.raw)
    case Provision(c) => w.(reg := Changed(w.reg, c, e.now))
  }

  lemma GenerateRaws(reg: Registry, u: Uuid, issued: string, now: Time, raw: string)
    requires u in reg.servers && RawIsNew(reg.tokens, raw) && issued != raw
    ensures RawIsNew(Provisioning.Generate(reg, u, issued, now).0.tokens, raw)
  {
  }

  /** A change adds no raw token but the one it issues. */
  lemma ChangeRaws(reg: Registry, c: Change, now: Time, raw: string)
    requires RegOk(reg) && RawIsNew(reg.tokens, raw) && IssuedRaw(c) != Some(raw)
    ensures RawIsNew(Changed(reg, c, now).tokens, raw)
  {
    match c
    case GenerateToken(u, issued) =>
      if u in reg.servers { GenerateRaws(reg, u, issued, now, raw); }
    case RegenerateToken(u, issued) =>
      if u in reg.servers {
        GenerateRaws(reg.(tokens := Provisioning.RevokedActive(reg.tokens, u, now)), u, issued, now, raw);
      }
    case _ =>
  }

  /** The raw token an event would issue has not been drawn before it. */
  lemma RawsGrow(events: seq<Event>, n: nat)
    requires IsRun(events) && n + 1 == |events|
    ensures IsRun(events[..n]) && RawsOf(events[..n]) <= RawsOf(events)
    ensures events[n].action.Provision? && IssuedRaw(events[n].action.change).Some? ==>
              && IssuedRaw(events[n].action.change).value in RawsOf(events)
              && IssuedRaw(events[n].action.change).value !in RawsOf(events[..n])
  {
    forall raw | raw in RawsOf(events[..n])
      ensures raw in RawsOf(events)
    {
      var i :| 0 <= i < n && events[..n][i].action.Provision? && IssuedRaw(events[..n][i].action.change) == Some(raw);
      assert events[i].action.Provision? && IssuedRaw(events[i].action.change).value == raw;
    }
  }

  /** The world a run from empty tables reaches; on the way ownership and tokens stay in order. */
  ghost function Run(events: seq<Event>): (w: World)
    requires IsRun(events)
    ensures RegOk(w.reg)
    ensures forall raw :: raw !in RawsOf(events) ==> RawIsNew(w.reg.tokens, raw)
  {
    if events == [] then EMPTY
    else
      var n := |events| - 1;
      RawsGrow(events, n);
      var before, e := Run(events[..n]), events[n];
      StepKeeps(before, e);
      Stepped(before, e)
  }

  lemma StepKeeps(w: World, e: Event)
    requires RegOk(w.reg)
    requires e.action.Provision? && IssuedRaw(e.action.change).Some?
             ==> RawIsNew(w.reg.tokens, IssuedRaw(e.action.change).value)
    ensures RegOk(Stepped(w, e).reg) && Advances(w.reg.tokens, Stepped(w, e).reg.tokens)
    ensures forall raw ::
              RawIsNew(w.reg.tokens, raw) && (e.action.Provision? ==> IssuedRaw(e.action.change) != Some(raw))
              ==> RawIsNew(Stepped(w, e).reg.tokens, raw)
  {
    match e.action
    case Monitoring(t) =>
      TickKeepsRegistry(w, t, e.now, e.raw);
      TickRegistry(w, t, e.now, e.raw);
    case Provision(c) =>
      ChangeKeeps(w.reg, c, e.now);
      forall raw | RawIsNew(w.reg.tokens, raw) && IssuedRaw(c) != Some(raw)
        ensures RawIsNew(Stepped(w, e).reg.tokens, raw)
      {
        ChangeRaws(w.reg, c, e.now, raw);
      }
  }
}
