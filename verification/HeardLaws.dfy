/** Who is heard: owners, heartbeats and registrations over whole runs. */
module HeardLaws {
  import opened Common
  import opened Clock
  import opened Schema
  import opened Database
  import opened Monitor
  import opened Heartbeat
  import opened Effects
  import opened Fleet
  import opened FleetLaws
  import opened ProvisioningLaws
  import Provisioning

  /** What an event answers if it is a registration. */
  ghost function Registration(w: World, e: Event): Provisioning.RegisterResult
    requires RegOk(w.reg)
  {
    if e.action.Provision? && e.action.change.Register?
    then Provisioning.Register(w.reg, e.action.change.raw, e.action.change.metadata, e.now).1
    else Provisioning.Gone
  }

  /** The instant of the last heartbeat an agent got through. */
  ghost function LastHeartbeat(events: seq<Event>, agent: nat): Option<Time>
    requires IsRun(events)
  {
    if events == [] then None
    else
      var n := |events| - 1;
      RawsGrow(events, n);
      var w, e := Run(events[..n]), events[n];
      if e.action.Monitoring? && SeenBy(w.reg, e.action.tick) == Some(agent) then Some(e.now)
      else LastHeartbeat(events[..n], agent)
  }

  /** The agent's installation completed a registration after its last heartbeat. */
  ghost predicate RegisteredSince(events: seq<Event>, agent: nat)
    requires IsRun(events)
  {
    if events == [] then false
    else
      var n := |events| - 1;
      RawsGrow(events, n);
      var w, e := Run(events[..n]), events[n];
      if e.action.Monitoring? && SeenBy(w.reg, e.action.tick) == Some(agent) then false
      else if Registration(w, e).Registered? && Registration(w, e).agent == agent then true
      else RegisteredSince(events[..n], agent)
  }

  /** The agent whose installation registered last for a server. */
  ghost function LastRegistrant(events: seq<Event>, u: Uuid): Option<nat>
    requires IsRun(events)
  {
    if events == [] then None
    else
      var n := |events| - 1;
      RawsGrow(events, n);
      var r := Registration(Run(events[..n]), events[n]);
      if r.Registered? && r.server == u then Some(r.agent) else LastRegistrant(events[..n], u)
  }

  // ---- what a registration does to the agents ----

  lemma AttachAgents(servers: map<Uuid, Server>, agents: seq<Agent>, u: Uuid, installation: string, a: nat)
    requires OwnersExist(servers, agents) && u in servers
    ensures var (_, after, id) := Provisioning.Attached(servers, agents, u, installation);
            a < |after| && after[a].status == Active ==>
              if a == id then after[a].lastSeen == None
              else a < |agents| && agents[a].status == Active && after[a].lastSeen == agents[a].lastSeen
  {
  }

  lemma RegisterAgents(reg: Registry, raw: string, m: Provisioning.Metadata, now: Time, a: nat)
    requires RegOk(reg)
    ensures var (after, r) := Provisioning.Register(reg, raw, m, now);
            a < |after.agents| && after.agents[a].status == Active ==>
              if r.Registered? && r.agent == a then after.agents[a].lastSeen == None
              else a < |reg.agents| && reg.agents[a].status == Active
                   && after.agents[a].lastSeen == reg.agents[a].lastSeen
  {
    var found := Provisioning.FindToken(reg.tokens, raw);
    if found.Some? && m.installation.Some? {
      AttachAgents(reg.servers, reg.agents, reg.tokens[found.value].server, m.installation.value, a);
    }
  }

  /** An active agent is seen as before, unless the step registered its installation: then it is not seen. */
  lemma ChangeAgents(w: World, e: Event, a: nat)
    requires RegOk(w.reg) && e.action.Provision?
    ensures var agents := Stepped(w, e).reg.agents;
            a < |agents| && agents[a].status == Active ==>
              var r := Registration(w, e);
              if r.Registered? && r.agent == a then agents[a].lastSeen == None
              else a < |w.reg.agents| && w.reg.agents[a].status == Active
                   && agents[a].lastSeen == w.reg.agents[a].lastSeen
  {
    var c := e.action.change;
    if c.Register? {
      RegisterAgents(w.reg, c.raw, c.metadata, e.now, a);
    } else {
      OtherChangeRow(w.reg, c, e.now, "");
    }
  }

  /**
   After any step an active agent is seen as of this heartbeat, not at
   all after its registration, or else as before.
   */
  lemma StepSeen(w: World, e: Event, a: nat)
    requires RegOk(w.reg)
    ensures var agents, r := Stepped(w, e).reg.agents, Registration(w, e);
            a < |agents| && agents[a].status == Active ==>
              if e.action.Monitoring? && SeenBy(w.reg, e.action.tick) == Some(a)
              then agents[a].lastSeen == Some(StampOf(e.now))
              else if r.Registered? && r.agent == a then agents[a].lastSeen == None
              else a < |w.reg.agents| && w.reg.agents[a].status == Active
                   && agents[a].lastSeen == w.reg.agents[a].lastSeen
  {
    match e.action
    case Monitoring(t) => TickRegistry(w, t, e.now, e.raw);
    case Provision(_) => ChangeAgents(w, e, a);
  }

  /** In every run, an active agent is seen as of its last heartbeat, unless it has registered since or never beat. */
  lemma {:induction false} SeenExactly(events: seq<Event>, a: nat)
    requires IsRun(events)
    ensures var agents := Run(events).reg.agents;
            a < |agents| && agents[a].status == Active ==>
              agents[a].lastSeen
              == if LastHeartbeat(events, a).Some? && !RegisteredSince(events, a)
                 then Some(StampOf(LastHeartbeat(events, a).value)) else None
  {
    if events != [] {
      var n := |events| - 1;
      LastStep(events);
      SeenExactly(events[..n], a);
      StepSeen(Run(events[..n]), events[n], a);
    }
  }

  // ---- owners ----

  function OwnerOf(reg: Registry, u: Uuid): Option<nat> {
    if u in reg.servers then reg.servers[u].agentId else None
  }

  /** A step moves a server exactly when it completes a registration for it. */
  lemma StepOwner(w: World, e: Event, u: Uuid)
    requires RegOk(w.reg)
    ensures var r := Registration(w, e);
            OwnerOf(Stepped(w, e).reg, u) == if r.Registered? && r.server == u then Some(r.agent) else OwnerOf(w.reg, u)
  {
    match e.action
    case Monitoring(t) => TickRegistry(w, t, e.now, e.raw);
    case Provision(c) =>
      if c.Register? {
        RegisterOwner(w.reg, c.raw, c.metadata, e.now, u);
      } else {
        OtherChangeOwner(w.reg, c, e.now, u);
      }
  }

  lemma RegisterOwner(reg: Registry, raw: string, m: Provisioning.Metadata, now: Time, u: Uuid)
    requires RegOk(reg)
    ensures var (after, r) := Provisioning.Register(reg, raw, m, now);
            OwnerOf(after, u) == if r.Registered? && r.server == u then Some(r.agent) else OwnerOf(reg, u)
  {
  }

  lemma OtherChangeOwner(reg: Registry, c: Change, now: Time, u: Uuid)
    requires RegOk(reg) && !c.Register?
    ensures OwnerOf(Changed(reg, c, now), u) == OwnerOf(reg, u)
  {
    OtherChangeRow(reg, c, now, u);
  }

  /** In every run the owner of a server is the agent that registered for it last. */
  lemma {:induction false} OwnerIsLastRegistrant(events: seq<Event>, u: Uuid)
    requires IsRun(events)
    ensures OwnerOf(Run(events).reg, u) == LastRegistrant(events, u)
  {
    if events != [] {
      var n := |events| - 1;
      LastStep(events);
      OwnerIsLastRegistrant(events[..n], u);
      StepOwner(Run(events[..n]), events[n], u);
    }
  }

  lemma ChangeKeepsInService(reg: Registry, c: Change, now: Time, u: Uuid)
    requires RegOk(reg) && u in Changed(reg, c, now).servers
    requires u in reg.servers ==> !Decommissioned(reg.servers[u])
    ensures !Decommissioned(Changed(reg, c, now).servers[u])
  {
    ChangeRow(reg, c, now, u);
  }

  /** No event of a run takes a server out of service; the user steps that do are not among the events. */
  lemma {:induction false} AllInService(events: seq<Event>, u: Uuid)
    requires IsRun(events)
    ensures u in Run(events).reg.servers ==> !Decommissioned(Run(events).reg.servers[u])
  {
    if events != [] {
      var n := |events| - 1;
      LastStep(events);
      AllInService(events[..n], u);
      if u in Run(events).reg.servers {
        var w, e := Run(events[..n]), events[n];
        match e.action
        case Monitoring(t) =>
          TickRegistry(w, t, e.now, e.raw);
          TickEffect(w, t, e.now, e.raw, u);
        case Provision(c) => ChangeKeepsInService(w.reg, c, e.now, u);
      }
    }
  }

  // ---- who brings a server online ----

  /** The tick is a heartbeat of this agent that names the server. */
  predicate Names(t: Tick, agent: nat, u: Uuid) {
    match t
    case Beat(a, listed) => a == agent && u in listed && IsUuid(u)
    case LegacyBeat(a, v) => a == agent && v == u
    case _ => false
  }

  /**
   Over every run: the heartbeats accepted for a server are exactly those that name it and
   come from the installation that registered for it last. Each brings it online; so once a
   registration has succeeded, and until the next one for the server, its agent and no
   other does, whatever happens in between.
   */
  lemma {:induction false} HeardExactlyWhen(events: seq<Event>, u: Uuid, t: Tick, now: Time, raw: int)
    requires IsRun(events) && u in Run(events).reg.servers
    ensures u in AcceptedBy(Run(events).reg, t)
       <==> LastRegistrant(events, u).Some? && Names(t, LastRegistrant(events, u).value, u)
    ensures u in AcceptedBy(Run(events).reg, t) ==>
              var after := Ticked(Run(events), t, now, raw).reg;
              u in after.servers && after.servers[u].status == Online
  {
    var reg := Run(events).reg;
    AllInService(events, u);
    OwnerIsLastRegistrant(events, u);
    OwnersAreActive(reg, u);
    TickEffect(Run(events), t, now, raw, u);
  }

  /** What step `k` of a run answers if it is a registration. */
  ghost function RegistrationAt(events: seq<Event>, k: nat): Provisioning.RegisterResult
    requires IsRun(events) && k < |events|
  {
    PrefixIsRun(events, k);
    Registration(Run(events[..k]), events[k])
  }

  ghost predicate MovesAt(events: seq<Event>, k: nat, u: Uuid)
    requires IsRun(events) && k < |events|
  {
    RegistrationAt(events, k).Registered? && RegistrationAt(events, k).server == u
  }

  /** No step after step `k` moves the server. */
  ghost predicate UnmovedSince(events: seq<Event>, k: nat, u: Uuid)
    requires IsRun(events)
  {
    var n := |events| - 1;
    if n <= k then true
    else
      PrefixIsRun(events, n);
      !MovesAt(events, n, u) && UnmovedSince(events[..n], k, u)
  }

  lemma {:induction false} LastMoveDecides(events: seq<Event>, k: nat, u: Uuid)
    requires IsRun(events) && k < |events| && MovesAt(events, k, u) && UnmovedSince(events, k, u)
    ensures LastRegistrant(events, u) == Some(RegistrationAt(events, k).agent)
  {
    var n := |events| - 1;
    LastRegistrantStep(events, u);
    if k < n {
      RegistrationAtPrefix(events, k, n);
      LastMoveDecides(events[..n], k, u);
    }
  }

  lemma {:induction false} LastRegistrantStep(events: seq<Event>, u: Uuid)
    requires IsRun(events) && events != []
    ensures var n := |events| - 1;
            && IsRun(events[..n])
            && LastRegistrant(events, u)
               == if MovesAt(events, n, u) then Some(RegistrationAt(events, n).agent)
                  else LastRegistrant(events[..n], u)
  {
    PrefixIsRun(events, |events| - 1);
  }

  lemma RegistrationAtPrefix(events: seq<Event>, j: nat, n: nat)
    requires IsRun(events) && j < n <= |events|
    ensures IsRun(events[..n]) && RegistrationAt(events[..n], j) == RegistrationAt(events, j)
  {
    PrefixIsRun(events, n);
    assert events[..n][..j] == events[..j];
  }

  /**
   From a registration to a heartbeat with anything in between: once a registration for a server
   has succeeded, and until another step moves the server, the heartbeats accepted for it are
   exactly those of that agent that name it, and each of them brings it online.
   */
  lemma {:induction false} RegisteredServerComesOnline(
    events: seq<Event>, k: nat, u: Uuid, t: Tick, now: Time, raw: int)
    requires IsRun(events) && k < |events|
    ensures MovesAt(events, k, u) && UnmovedSince(events, k, u) ==>
              && (u in AcceptedBy(Run(events).reg, t) <==> Names(t, RegistrationAt(events, k).agent, u))
              && (Names(t, RegistrationAt(events, k).agent, u) ==>
                    var after := Ticked(Run(events), t, now, raw).reg;
                    u in after.servers && after.servers[u].status == Online)
  {
    if MovesAt(events, k, u) && UnmovedSince(events, k, u) {
      LastMoveDecides(events, k, u);
      OwnerIsLastRegistrant(events, u);
      HeardExactlyWhen(events, u, t, now, raw);
    }
  }
}
