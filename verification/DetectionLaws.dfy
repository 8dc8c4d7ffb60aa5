/** Timed detection: when a silent server is found offline, and when it is not. */
module DetectionLaws {
  import opened Common
  import opened Clock
  import opened Schema
  import opened Database
  import opened Monitor
  import opened Heartbeat
  import opened Effects
  import opened Fleet
  import opened FleetLaws
  import opened HeardLaws
  import opened MonitoringLaws
  import opened OnlineTimeLaws
  import opened ProvisioningLaws
  import Provisioning

  /** The second at which the check scheduled by a heartbeat seen at `seen` becomes available. */
  function Due(seen: Stamp, raw: int): int {
    seen + Threshold(raw) + 2
  }

  // ---- the thresholds ----

  /** The delayed check of a heartbeat finds its silent agent offline exactly for settings that are not negative. */
  lemma CheckFindsSilenceExactlyWhen(seen: Stamp, raw: int)
    requires 0 <= Due(seen, raw)
    ensures IsOffline(Some(seen), Threshold(raw), Due(seen, raw) * MICROS) <==> 0 <= raw
  {
  }

  /** No alarm comes within the threshold of the stamp exactly for settings below a million. */
  lemma AlarmsWaitExactlyWhen(seen: Stamp, raw: int)
    ensures (forall now: Time :: IsOffline(Some(seen), Threshold(raw), now)
                   ==> InstantOf(seen) + Threshold(raw) * MICROS < now)
       <==> raw < 1_000_000
  {
    ThresholdsAgree(raw);
    if 1_000_000 <= raw {
      assert IsOffline(Some(seen), Threshold(raw), InstantOf(seen) + Threshold(raw) * MICROS);
    }
  }

  /**
   A setting in seconds, or in milliseconds from a thousand on: what the checks are scheduled by,
   and what silence is measured by, which scales a setting from a million on once more.
   */
  lemma ThresholdsAre(raw: int)
    ensures Threshold(raw) == if raw == 0 then 15 else if raw < 1_000 then raw else raw / 1_000
    ensures HealthThreshold(Threshold(raw))
         == if raw <= 0 then 15
            else if raw < 1_000 then raw
            else if raw < 1_000_000 then raw / 1_000
            else raw / 1_000_000
  {
  }

  lemma OverdueOnceDue(seen: Stamp, raw: int, now: Time)
    requires 0 <= raw && Due(seen, raw) * MICROS <= now
    ensures IsOffline(Some(seen), Threshold(raw), now)
  {
  }

  /**
   An alarm raised within the threshold of a heartbeat at instant `beat` is possible
   only because its stamp lost a fraction, and exactly in the window that fraction leaves.
   */
  lemma EarlyAlarmExactlyWhen(beat: Time, now: Time, raw: int)
    requires beat <= now && 0 <= raw < 1_000_000
    ensures var limit := Threshold(raw) * MICROS;
            (IsOffline(Some(StampOf(beat)), Threshold(raw), now) && now - beat <= limit)
            <==> limit - beat % MICROS < now - beat <= limit
  {
    ThresholdsAgree(raw);
    assert beat == StampOf(beat) * MICROS + beat % MICROS;
  }

  // ---- the last heartbeat ----

  /** The instant of the last heartbeat an agent got through in a monitoring run. */
  ghost function LastBeat(w: World, run: seq<Moment>, agent: nat): Option<Time> {
    var n := |run|;
    if n == 0 then None
    else if SeenBy(Watch(w, run[..n - 1]).reg, run[n - 1].tick) == Some(agent) then Some(run[n - 1].now)
    else LastBeat(w, run[..n - 1], agent)
  }

  lemma {:induction false} SeenIsLastBeat(w: World, run: seq<Moment>, agent: nat)
    requires agent < |w.reg.agents|
    ensures var after := Watch(w, run).reg;
            && agent < |after.agents|
            && after.agents[agent].lastSeen
               == if LastBeat(w, run, agent).Some? then Some(StampOf(LastBeat(w, run, agent).value))
                  else w.reg.agents[agent].lastSeen
  {
    var n := |run|;
    if n > 0 {
      SeenIsLastBeat(w, run[..n - 1], agent);
      TickRegistry(Watch(w, run[..n - 1]), run[n - 1].tick, run[n - 1].now, run[n - 1].raw);
    }
  }

  // ---- the invariant ----

  /** The last heartbeat of a server's owner. */
  ghost function OwnerBeat(events: seq<Event>, u: Uuid): Option<Time>
    requires IsRun(events)
  {
    var owner := OwnerOf(Run(events).reg, u);
    if owner.Some? then LastHeartbeat(events, owner.value) else None
  }

  /**
   Server `u`, whose owner's last heartbeat was `beat`, is guarded: an owner that is seen is
   seen as of that heartbeat, whose check is ahead or already due, and while the server is
   online the check is ahead, whether or not the owner is still seen.
   */
  ghost predicate Guarded(w: World, u: Uuid, raw: int, clock: Time, beat: Option<Time>)
    requires u in w.reg.servers
  {
    && (OwnerSeen(w.reg, u).Some? ==>
          && beat.Some? && OwnerSeen(w.reg, u).value == StampOf(beat.value)
          && (Job(u, Due(StampOf(beat.value), raw)) in w.jobs || Due(StampOf(beat.value), raw) * MICROS <= clock))
    && (w.reg.servers[u].status == Online ==> beat.Some? && Job(u, Due(StampOf(beat.value), raw)) in w.jobs)
  }

  /** A heartbeat lists every server in service that its agent owns. */
  ghost predicate ListsAll(reg: Registry, t: Tick) {
    SeenBy(reg, t).Some? ==>
      forall u :: u in reg.servers && reg.servers[u].agentId == SeenBy(reg, t) && !Decommissioned(reg.servers[u])
        ==> u in AcceptedBy(reg, t)
  }

  lemma HeartbeatIsBeaten(w: World, t: Tick, now: Time, raw: int)
    requires t.Beat? || t.LegacyBeat?
    ensures Ticked(w, t, now, raw)
         == if SeenBy(w.reg, t).Some? then Beaten(w, SeenBy(w.reg, t).value, AcceptedBy(w.reg, t), now, raw) else w
  {
  }

  lemma BeatenSchedules(w: World, agent: nat, accepted: seq<Uuid>, now: Time, raw: int, u: Uuid)
    requires agent < |w.reg.agents| && forall v :: v in accepted ==> v in w.reg.servers
    ensures var after := Beaten(w, agent, accepted, now, raw);
            w.jobs <= after.jobs && (u in accepted ==> Job(u, Due(StampOf(now), raw)) in after.jobs)
  {
    BeatenRegistry(w, agent, accepted, now, raw);
    if u in accepted {
      BeatenJobs(w, agent, accepted, now, raw, u);
    }
  }

  lemma BeatSchedules(w: World, t: Tick, now: Time, raw: int, u: Uuid)
    requires t.Beat? || t.LegacyBeat?
    ensures var after := Ticked(w, t, now, raw);
            && w.jobs <= after.jobs
            && (u in AcceptedBy(w.reg, t) ==> Job(u, Due(StampOf(now), raw)) in after.jobs)
  {
    HeartbeatIsBeaten(w, t, now, raw);
    if SeenBy(w.reg, t).Some? {
      BeatenSchedules(w, SeenBy(w.reg, t).value, AcceptedBy(w.reg, t), now, raw, u);
    }
  }

  lemma UnlistedIsUnseen(w: World, t: Tick, now: Time, raw: int, u: Uuid)
    requires u in w.reg.servers && !Decommissioned(w.reg.servers[u]) && ListsAll(w.reg, t) && u !in AcceptedBy(w.reg, t)
    ensures OwnerSeen(Ticked(w, t, now, raw).reg, u) == OwnerSeen(w.reg, u)
  {
    TickRegistry(w, t, now, raw);
  }

  lemma BeatGuards(w: World, t: Tick, now: Time, raw: int, clock: Time, u: Uuid, beat: Option<Time>)
    requires t.Beat? || t.LegacyBeat?
    requires u in w.reg.servers && !Decommissioned(w.reg.servers[u]) && Guarded(w, u, raw, clock, beat)
    requires clock <= now && ListsAll(w.reg, t)
    ensures u in Ticked(w, t, now, raw).reg.servers
    ensures Guarded(Ticked(w, t, now, raw), u, raw, now, if u in AcceptedBy(w.reg, t) then Some(now) else beat)
  {
    TickEffect(w, t, now, raw, u);
    BeatSchedules(w, t, now, raw, u);
    if beat.Some? {
      BeatKeepsJob(w, t, now, raw, Job(u, Due(StampOf(beat.value), raw)));
    }
    if u in AcceptedBy(w.reg, t) {
      TickSeen(w, t, now, raw, u);
    } else {
      UnlistedIsUnseen(w, t, now, raw, u);
    }
  }

  lemma BeatKeepsJob(w: World, t: Tick, now: Time, raw: int, job: Job)
    requires t.Beat? || t.LegacyBeat?
    ensures job in w.jobs ==> job in Ticked(w, t, now, raw).jobs
  {
    BeatSchedules(w, t, now, raw, job.server);
  }

  /** A health check takes a guarded server offline in time, and brings one back only under guard. */
  lemma HealthCheckGuards(w: World, v: Uuid, now: Time, raw: int, u: Uuid, beat: Option<Time>)
    requires RegOk(w.reg) && 0 <= raw
    requires u in w.reg.servers && !Decommissioned(w.reg.servers[u])
    requires OwnerSeen(w.reg, u).Some? ==>
               && beat.Some? && OwnerSeen(w.reg, u).value == StampOf(beat.value)
               && (Job(u, Due(StampOf(beat.value), raw)) in w.jobs || Due(StampOf(beat.value), raw) * MICROS <= now)
    requires w.reg.servers[u].status == Online ==>
               && w.reg.servers[u].agentId.Some? && beat.Some?
               && (Job(u, Due(StampOf(beat.value), raw)) in w.jobs
                     || (u == v && Due(StampOf(beat.value), raw) * MICROS <= now))
    ensures u in Monitored(w, v, now, raw).reg.servers && Guarded(Monitored(w, v, now, raw), u, raw, now, beat)
  {
    MonitoredRow(w, v, now, raw, u);
    OwnersAreActive(w.reg, u);
    assert OwnerSeen(Monitored(w, v, now, raw).reg, u) == OwnerSeen(w.reg, u);
    if beat.Some? && Due(StampOf(beat.value), raw) * MICROS <= now {
      OverdueOnceDue(StampOf(beat.value), raw, now);
    }
  }

  /** The check that is consumed is the owner's own, or leaves that one ahead. */
  lemma CheckGuards(w: World, job: Job, now: Time, raw: int, clock: Time, u: Uuid, beat: Option<Time>)
    requires RegOk(w.reg) && 0 <= raw && clock <= now
    requires u in w.reg.servers && !Decommissioned(w.reg.servers[u]) && Guarded(w, u, raw, clock, beat)
    requires w.reg.servers[u].status == Online ==> w.reg.servers[u].agentId.Some?
    ensures u in Checked(w, job, now, raw).reg.servers && Guarded(Checked(w, job, now, raw), u, raw, now, beat)
  {
    if job in w.jobs && job.due * MICROS <= now {
      HealthCheckGuards(w.(jobs := w.jobs - multiset{job}), job.server, now, raw, u, beat);
    }
  }

  lemma DetailGuards(w: World, v: Uuid, now: Time, raw: int, clock: Time, u: Uuid, beat: Option<Time>)
    requires v in w.reg.servers && clock <= now
    requires u in w.reg.servers && Guarded(w, u, raw, clock, beat)
    ensures u in DetailRead(w, v, now, raw).0.reg.servers && Guarded(DetailRead(w, v, now, raw).0, u, raw, now, beat)
  {
    DetailRow(w, v, now, raw, u);
  }

  lemma TickGuards(w: World, t: Tick, now: Time, raw: int, clock: Time, u: Uuid, beat: Option<Time>)
    requires RegOk(w.reg) && 0 <= raw && clock <= now && ListsAll(w.reg, t)
    requires u in w.reg.servers && !Decommissioned(w.reg.servers[u]) && Guarded(w, u, raw, clock, beat)
    requires w.reg.servers[u].status == Online ==> w.reg.servers[u].agentId.Some?
    ensures u in Ticked(w, t, now, raw).reg.servers
    ensures Guarded(Ticked(w, t, now, raw), u, raw, now, if u in AcceptedBy(w.reg, t) then Some(now) else beat)
  {
    match t
    case Beat(_, _) => BeatGuards(w, t, now, raw, clock, u, beat);
    case LegacyBeat(_, _) => BeatGuards(w, t, now, raw, clock, u, beat);
    case RunMonitor(v) => HealthCheckGuards(w, v, now, raw, u, beat);
    case RunCheck(job) =>
      CheckGuards(w, job, now, raw, clock, u, beat);
    case ReadDetail(v) =>
      if v in w.reg.servers {
        DetailGuards(w, v, now, raw, clock, u, beat);
      }
  }

  /** A provisioning step moves no server that is online after it, and none whose owner is seen after it. */
  lemma ChangeMovesOnlyUnseen(reg: Registry, c: Change, now: Time, u: Uuid)
    requires RegOk(reg) && u in Changed(reg, c, now).servers
    requires Changed(reg, c, now).servers[u].status == Online || OwnerSeen(Changed(reg, c, now), u).Some?
    ensures u in reg.servers && reg.servers[u].agentId == Changed(reg, c, now).servers[u].agentId
    ensures Changed(reg, c, now).servers[u].status == Online ==> reg.servers[u].status == Online
    ensures OwnerSeen(Changed(reg, c, now), u).Some? ==> OwnerSeen(Changed(reg, c, now), u) == OwnerSeen(reg, u)
  {
    ChangeRow(reg, c, now, u);
    ChangeClears(reg, c, now, u);
    ChangeClearsOwner(reg, c, now, u);
  }

  // ---- whole runs ----

  /**
   Monitoring goes on under one setting, and heartbeats list all their
   agent's servers; provisioning comes in anywhere.
   */
  ghost predicate Steady(events: seq<Event>, raw: int)
    requires IsRun(events)
  {
    if events == [] then true
    else
      var n := |events| - 1;
      RawsGrow(events, n);
      && Steady(events[..n], raw)
      && (events[n].action.Monitoring? ==>
            events[n].raw == raw && ListsAll(Run(events[..n]).reg, events[n].action.tick))
  }

  function Now(events: seq<Event>): Time {
    if events == [] then 0 else events[|events| - 1].now
  }

  /** After a tick the owner's last heartbeat is this one, if it was accepted for the server. */
  lemma TickMovesBeat(events: seq<Event>, u: Uuid)
    requires IsRun(events) && events != [] && events[|events| - 1].action.Monitoring?
    requires IsRun(events[..|events| - 1]) && u in Run(events[..|events| - 1]).reg.servers
    requires var t := events[|events| - 1].action.tick; ListsAll(Run(events[..|events| - 1]).reg, t)
    ensures var n, e := |events| - 1, events[|events| - 1];
            OwnerBeat(events, u)
            == if u in AcceptedBy(Run(events[..n]).reg, e.action.tick) then Some(e.now) else OwnerBeat(events[..n], u)
  {
    var n, e := |events| - 1, events[|events| - 1];
    LastStep(events);
    AllInService(events[..n], u);
    var reg := Run(events[..n]).reg;
    TickRegistry(Run(events[..n]), e.action.tick, e.now, e.raw);
    if u in AcceptedBy(reg, e.action.tick) {
      AcceptedIsOwned(reg, e.action.tick, u);
    }
  }

  /** In every steady run every server is guarded by the check of its owner's last heartbeat. */
  lemma {:induction false} RunIsGuarded(events: seq<Event>, raw: int, u: Uuid)
    requires IsRun(events) && 0 <= raw && Steady(events, raw) && u in Run(events).reg.servers
    ensures Guarded(Run(events), u, raw, Now(events), OwnerBeat(events, u))
    ensures Run(events).reg.servers[u].status == Online ==> OwnerOf(Run(events).reg, u).Some?
  {
    if events != [] {
      var n := |events| - 1;
      LastStep(events);
      var w, e := Run(events[..n]), events[n];
      match e.action
      case Monitoring(t) =>
        TickRegistry(w, t, e.now, e.raw);
        AllInService(events[..n], u);
        RunIsGuarded(events[..n], raw, u);
        TickGuards(w, t, e.now, raw, Now(events[..n]), u, OwnerBeat(events[..n], u));
        TickMovesBeat(events, u);
      case Provision(c) =>
        if Run(events).reg.servers[u].status == Online || OwnerSeen(Run(events).reg, u).Some? {
          ChangeMovesOnlyUnseen(w.reg, c, e.now, u);
          RunIsGuarded(events[..n], raw, u);
        }
    }
  }

  /** Every delayed check available by `t` has run. */
  ghost predicate ChecksHaveRun(w: World, t: Time) {
    forall job :: job in w.jobs ==> t < job.due * MICROS
  }

  /**
   Over every run from empty tables, with servers created, provisioned, registered and moved
   at any point: while monitoring goes on under one non-negative setting and heartbeats list
   all of their agent's servers, whenever every check that is due has run, a server is stored
   online only if its owner beat less than threshold + 2 seconds ago.
   */
  lemma {:induction false} NoneOnlineAfterSilence(events: seq<Event>, raw: int, t: Time, u: Uuid)
    requires IsRun(events) && 0 <= raw && Steady(events, raw)
    ensures ChecksHaveRun(Run(events), t) && IsStored(Run(events).reg, u, Online) ==>
              && OwnerBeat(events, u).Some?
              && var beat := OwnerBeat(events, u).value;
                 t < InstantOf(StampOf(beat)) + (Threshold(raw) + 2) * MICROS <= beat + (Threshold(raw) + 2) * MICROS
  {
    if ChecksHaveRun(Run(events), t) && IsStored(Run(events).reg, u, Online) {
      RunIsGuarded(events, raw, u);
      assert t < Due(StampOf(OwnerBeat(events, u).value), raw) * MICROS;
    }
  }

  predicate IsStored(reg: Registry, u: Uuid, status: Status) {
    u in reg.servers && reg.servers[u].status == status
  }

  // ---- alarms ----

  /** The owner has been heard: it beat, and its installation has not registered again since. */
  ghost predicate StillSeen(events: seq<Event>, u: Uuid)
    requires IsRun(events)
  {
    var owner := OwnerOf(Run(events).reg, u);
    owner.Some? && LastHeartbeat(events, owner.value).Some? && !RegisteredSince(events, owner.value)
  }

  /** In every run an owner is overdue exactly when it is no longer seen, or when its last heartbeat is too old. */
  lemma {:induction false} OverdueExactlyWhen(events: seq<Event>, u: Uuid, now: Time, raw: int)
    requires IsRun(events)
    ensures Overdue(Run(events).reg, u, now, raw)
       <==> (StillSeen(events, u) ==>
               InstantOf(StampOf(OwnerBeat(events, u).value)) + HealthThreshold(Threshold(raw)) * MICROS < now)
  {
    var reg := Run(events).reg;
    var owner := OwnerOf(reg, u);
    if owner.Some? {
      OwnersAreActive(reg, u);
      SeenExactly(events, owner.value);
    }
  }

  /** A health check looks at the server, and it is not offline already. */
  predicate CanBeAlarmed(reg: Registry, u: Uuid) {
    HasLiveOwner(reg, u) && reg.servers[u].status != Offline
  }

  /** The owner of `u` beat at most the threshold ago, counted from the stamp of that heartbeat. */
  ghost predicate HeardWithin(events: seq<Event>, u: Uuid, now: Time, raw: int)
    requires IsRun(events)
  {
    OwnerBeat(events, u).Some? && now <= InstantOf(StampOf(OwnerBeat(events, u).value)) + Threshold(raw) * MICROS
  }

  /**
   Over every run: a health check takes a server offline although its owner was heard
   within the threshold exactly when that installation has registered again since.
   */
  lemma {:induction false} CheckAlarmsEarlyExactlyWhen(events: seq<Event>, t: Tick, now: Time, raw: int, u: Uuid)
    requires IsRun(events) && raw < 1_000_000
    ensures CanBeAlarmed(Run(events).reg, u) && CheckedBy(Run(events), t, now) == Some(u)
            && HeardWithin(events, u, now, raw) ==>
              (IsStored(Ticked(Run(events), t, now, raw).reg, u, Offline)
               <==> RegisteredSince(events, Run(events).reg.servers[u].agentId.value))
  {
    if CanBeAlarmed(Run(events).reg, u) && CheckedBy(Run(events), t, now) == Some(u)
       && HeardWithin(events, u, now, raw) {
      ThresholdsAgree(raw);
      OverdueExactlyWhen(events, u, now, raw);
      OfflineExactlyWhen(Run(events), t, now, raw, u);
    }
  }

  /** The same for a detail page, which must also be in a state that writes and get the lock. */
  lemma {:induction false} DetailAlarmsEarlyExactlyWhen(events: seq<Event>, now: Time, raw: int, u: Uuid)
    requires IsRun(events) && raw < 1_000_000
    ensures CanBeAlarmed(Run(events).reg, u) && HeardWithin(events, u, now, raw) ==>
              (IsStored(Ticked(Run(events), ReadDetail(u), now, raw).reg, u, Offline)
               <==> (&& RegisteredSince(events, Run(events).reg.servers[u].agentId.value)
                     && Run(events).reg.servers[u].status !in {AgentUninstalled, WaitingForFirstHeartbeat}
                     && LockOf(Run(events), u) <= StampOf(now)))
  {
    if CanBeAlarmed(Run(events).reg, u) && HeardWithin(events, u, now, raw) {
      ThresholdsAgree(raw);
      OverdueExactlyWhen(events, u, now, raw);
      OfflineExactlyWhen(Run(events), ReadDetail(u), now, raw, u);
    }
  }

  /**
   A check takes a server offline in any run exactly when its owner is no
   longer seen or was last heard too long ago.
   */
  lemma {:induction false} CheckTakesOfflineExactlyWhen(events: seq<Event>, t: Tick, now: Time, raw: int, u: Uuid)
    requires IsRun(events)
    ensures CanBeAlarmed(Run(events).reg, u) && CheckedBy(Run(events), t, now) == Some(u) ==>
              (IsStored(Ticked(Run(events), t, now, raw).reg, u, Offline)
               <==> (StillSeen(events, u) ==>
                       InstantOf(StampOf(OwnerBeat(events, u).value)) + HealthThreshold(Threshold(raw)) * MICROS < now))
  {
    if CanBeAlarmed(Run(events).reg, u) && CheckedBy(Run(events), t, now) == Some(u) {
      OverdueExactlyWhen(events, u, now, raw);
      OfflineExactlyWhen(Run(events), t, now, raw, u);
    }
  }

  /**
   No early alarm, from any world: under a setting below a million, a server is only
   ever taken offline more than the threshold after its owner's last heartbeat, as stamped.
   */
  lemma {:induction false} NoneOfflineWhileHeard(w: World, run: seq<Moment>, m: Moment, u: Uuid)
    requires m.raw < 1_000_000
    requires u in Watch(w, run).reg.servers && Watch(w, run).reg.servers[u].status != Offline
    requires u in Watch(w, run + [m]).reg.servers && Watch(w, run + [m]).reg.servers[u].status == Offline
    ensures var owner := Watch(w, run).reg.servers[u].agentId;
            && owner.Some?
            && var beat := LastBeat(w, run, owner.value);
               beat.Some? ==> InstantOf(StampOf(beat.value)) + Threshold(m.raw) * MICROS < m.now
  {
    var before := Watch(w, run);
    assert (run + [m])[..|run|] == run;
    OfflineExactlyWhen(before, m.tick, m.now, m.raw, u);
    WatchKeepsRegistry(w, run);
    SeenIsLastBeat(w, run, before.reg.servers[u].agentId.value);
  }

  /**
   Who a registration silences: the servers of the installation it ends with, and no
   other. Their owner is no longer seen, so the next health check takes each of them
   offline however recently it was heard; every other owner is seen as before.
   */
  lemma RegistrationSilencesExactlyItsInstallation(
    w: World, raw: string, m: Provisioning.Metadata, at: Time, v: Uuid, now: Time, setting: int)
    requires RegOk(w.reg)
    ensures var (reg, result) := Provisioning.Register(w.reg, raw, m, at);
            result.Registered? && v in reg.servers ==>
              && OwnerSeen(reg, v)
                 == (if reg.servers[v].agentId == Some(result.agent) then None else OwnerSeen(w.reg, v))
              && (reg.servers[v].agentId == Some(result.agent) && !Decommissioned(reg.servers[v]) ==>
                    var after := Ticked(w.(reg := reg), RunMonitor(v), now, setting).reg;
                    v in after.servers && after.servers[v].status == Offline)
  {
    RegisterKeeps(w.reg, raw, m, at);
    var (reg, result) := Provisioning.Register(w.reg, raw, m, at);
    if result.Registered? && v in reg.servers {
      SilencedOwner(w.reg, raw, m, at, v);
      OwnersAreActive(reg, v);
      MonitoredRow(w.(reg := reg), v, now, setting, v);
    }
  }

  lemma SilencedOwner(reg: Registry, raw: string, m: Provisioning.Metadata, at: Time, v: Uuid)
    requires RegOk(reg)
    requires Provisioning.Register(reg, raw, m, at).1.Registered?
             && v in Provisioning.Register(reg, raw, m, at).0.servers
    ensures var (after, result) := Provisioning.Register(reg, raw, m, at);
            OwnerSeen(after, v) == if after.servers[v].agentId == Some(result.agent) then None else OwnerSeen(reg, v)
  {
    var after := Provisioning.Register(reg, raw, m, at).0;
    var u := reg.tokens[Provisioning.FindToken(reg.tokens, raw).value].server;
    RegisterKeeps(reg, raw, m, at);
    AttachClears(reg.servers, reg.agents, u, m.installation.value);
    if after.servers[v].agentId.Some? {
      OwnersAreActive(after, v);
      AttachAgents(reg.servers, reg.agents, u, m.installation.value, after.servers[v].agentId.value);
    }
  }
}
