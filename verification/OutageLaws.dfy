/** Outages as they are recorded: the stamp on the server's row, and the item on the board. */
module OutageLaws {
  import opened Common
  import opened Clock
  import opened Schema
  import opened Database
  import opened Monitor
  import opened Heartbeat
  import opened Effects
  import opened Fleet
  import opened FleetLaws

  // ---- when an outage began ----

  function OutageStamp(reg: Registry, u: Uuid): Option<Stamp> {
    if u in reg.servers then reg.servers[u].wentOfflineAt else None
  }

  function StatusOf(reg: Registry, u: Uuid): Option<Status> {
    if u in reg.servers then Some(reg.servers[u].status) else None
  }

  /**
   What one step does to `went_offline_at`: going offline writes the second of the step, a
   recovery that is not a heartbeat clears it, and anything else, heartbeats included, leaves it.
   */
  ghost predicate StampMoves(before: Registry, after: Registry, u: Uuid, accepted: bool, now: Time) {
    OutageStamp(after, u)
    == if StatusOf(after, u) == Some(Offline) && StatusOf(before, u) != Some(Offline) then Some(StampOf(now))
       else if StatusOf(before, u) == Some(Offline) && StatusOf(after, u) == Some(Online) && !accepted then None
       else OutageStamp(before, u)
  }

  lemma BeatenStamp(w: World, agent: nat, accepted: seq<Uuid>, now: Time, raw: int, u: Uuid)
    requires agent < |w.reg.agents| && (forall v :: v in accepted ==> v in w.reg.servers) && u in w.reg.servers
    ensures StampMoves(w.reg, Beaten(w, agent, accepted, now, raw).reg, u, u in accepted, now)
  {
    BeatenEffect(w, agent, accepted, now, raw, u);
  }

  lemma MonitoredStamp(w: World, v: Uuid, now: Time, raw: int, u: Uuid)
    ensures StampMoves(w.reg, Monitored(w, v, now, raw).reg, u, false, now)
  {
  }

  lemma DetailStamp(w: World, v: Uuid, now: Time, raw: int, u: Uuid)
    requires v in w.reg.servers
    ensures StampMoves(w.reg, DetailRead(w, v, now, raw).0.reg, u, false, now)
  {
  }

  /** Every tick. */
  lemma TickStamp(w: World, t: Tick, now: Time, raw: int, u: Uuid)
    ensures StampMoves(w.reg, Ticked(w, t, now, raw).reg, u, u in AcceptedBy(w.reg, t), now)
  {
    TickRegistry(w, t, now, raw);
    match t
    case Beat(agent, listed) =>
      if Authenticates(w.reg, agent) && u in w.reg.servers {
        BeatenStamp(w, agent, AcceptedOf(w.reg, agent, listed), now, raw, u);
      }
    case LegacyBeat(agent, v) =>
      if AcceptedBy(w.reg, t) != [] && u in w.reg.servers {
        BeatenStamp(w, agent, [v], now, raw, u);
      }
    case RunMonitor(v) => MonitoredStamp(w, v, now, raw, u);
    case RunCheck(job) => MonitoredStamp(w.(jobs := w.jobs - multiset{job}), job.server, now, raw, u);
    case ReadDetail(v) =>
      if v in w.reg.servers { DetailStamp(w, v, now, raw, u); }
  }

  /** Every event: provisioning moves no stamp. */
  lemma StepStamp(w: World, e: Event, u: Uuid)
    requires RegOk(w.reg)
    ensures StampMoves(w.reg, Stepped(w, e).reg, u,
                       e.action.Monitoring? && u in AcceptedBy(w.reg, e.action.tick), e.now)
  {
    match e.action
    case Monitoring(t) => TickStamp(w, t, e.now, e.raw, u);
    case Provision(c) => ChangeRow(w.reg, c, e.now, u);
  }

  /** The last step that took the server offline. */
  ghost function WentOfflineLast(events: seq<Event>, u: Uuid): Option<Time>
    requires IsRun(events)
  {
    if events == [] then None
    else
      var n := |events| - 1;
      PrefixIsRun(events, n);
      if StatusOf(Run(events).reg, u) == Some(Offline) && StatusOf(Run(events[..n]).reg, u) != Some(Offline)
      then Some(events[n].now) else WentOfflineLast(events[..n], u)
  }

  /** A monitor job brought the server back after it last went offline. */
  ghost predicate RecoveredSince(events: seq<Event>, u: Uuid)
    requires IsRun(events)
  {
    if events == [] then false
    else
      var n := |events| - 1;
      PrefixIsRun(events, n);
      var before, after, e := Run(events[..n]).reg, Run(events).reg, events[n];
      if StatusOf(after, u) == Some(Offline) && StatusOf(before, u) != Some(Offline) then false
      else
        || RecoveredSince(events[..n], u)
        || (&& StatusOf(before, u) == Some(Offline) && StatusOf(after, u) == Some(Online)
            && !(e.action.Monitoring? && u in AcceptedBy(before, e.action.tick)))
  }

  /**
   In every run `went_offline_at` is the second of the server's last step to offline, or empty if
   there was none or a monitor has recovered it since. A heartbeat does not clear it.
   */
  lemma {:induction false} StampExactly(events: seq<Event>, u: Uuid)
    requires IsRun(events)
    ensures OutageStamp(Run(events).reg, u)
         == if WentOfflineLast(events, u).Some? && !RecoveredSince(events, u)
            then Some(StampOf(WentOfflineLast(events, u).value)) else None
    ensures StatusOf(Run(events).reg, u) == Some(Offline) ==>
              WentOfflineLast(events, u).Some? && !RecoveredSince(events, u)
  {
    if events != [] {
      var n := |events| - 1;
      LastStep(events);
      StampExactly(events[..n], u);
      StepStamp(Run(events[..n]), events[n], u);
    }
  }

  /** In every run an offline server carries the second in which it last went offline, as a notification reads it. */
  lemma {:induction false} OfflineSinceItsStamp(events: seq<Event>, u: Uuid)
    requires IsRun(events) && u in Run(events).reg.servers && Run(events).reg.servers[u].status == Offline
    ensures WentOfflineLast(events, u).Some?
    ensures Run(events).reg.servers[u].wentOfflineAt == Some(StampOf(WentOfflineLast(events, u).value))
  {
    StampExactly(events, u);
  }
}
