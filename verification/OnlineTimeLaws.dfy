/** How much online time a server can gain over a whole run. */
module OnlineTimeLaws {
  import opened Common
  import opened Clock
  import opened Schema
  import opened Database
  import opened Monitor
  import opened Heartbeat
  import opened Effects
  import opened Fleet
  import opened FleetLaws
  import opened ProvisioningLaws
  import Provisioning

  /**
   What online time is measured against: nothing until a server is first online;
   then `first`, the stamp of the heartbeat that brought it online (or, when a monitor
   did, of the owner's heartbeat the monitor relied on), and `mark`, the stamp of
   the latest heartbeat accepted for it.
   */
  datatype Meter = Off | Running(first: Stamp, mark: Stamp)

  ghost predicate Accepted(w: World, e: Event, u: Uuid) {
    e.action.Monitoring? && u in AcceptedBy(w.reg, e.action.tick)
  }

  ghost function MeterStep(m: Meter, w: World, e: Event, after: World, u: Uuid): Meter {
    var now := StampOf(e.now);
    if Accepted(w, e, u) then Running(if m.Off? then now else m.first, now)
    else if m.Off? && u in after.reg.servers && after.reg.servers[u].status == Online
            && OwnerSeen(after.reg, u).Some? then
      Running(OwnerSeen(after.reg, u).value, OwnerSeen(after.reg, u).value)
    else m
  }

  /**
   A heartbeat that misses no time: it comes in the same second as the one before,
   or the server was still online, no other heartbeat moved the owner's `last_seen_at`
   since, and the gap counts.
   */
  ghost predicate Tight(m: Meter, w: World, e: Event, u: Uuid) {
    Accepted(w, e, u) && m.Running? ==>
      || StampOf(e.now) == m.mark
      || (&& w.reg.servers[u].status == Online && OwnerSeen(w.reg, u) == Some(m.mark)
          && (StampOf(e.now) - m.mark <= 5 || StampOf(e.now) - m.mark <= Threshold(e.raw) + 5))
  }

  ghost function MeterOf(events: seq<Event>, u: Uuid): Meter
    requires IsRun(events)
  {
    if events == [] then Off
    else
      var n := |events| - 1;
      RawsGrow(events, n);
      MeterStep(MeterOf(events[..n], u), Run(events[..n]), events[n], Run(events), u)
  }

  ghost predicate AllTight(events: seq<Event>, u: Uuid)
    requires IsRun(events)
  {
    if events == [] then true
    else
      var n := |events| - 1;
      RawsGrow(events, n);
      AllTight(events[..n], u) && Tight(MeterOf(events[..n], u), Run(events[..n]), events[n], u)
  }

  /** The seconds from the mark to an instant. */
  function GapTo(m: Meter, now: Time): nat {
    if m.Running? && m.mark <= StampOf(now) then StampOf(now) - m.mark else 0
  }

  /** What an event can add at most: the time since the mark, once for each time the server is accepted. */
  ghost function WeightedGap(m: Meter, w: World, e: Event, u: Uuid): nat {
    if Accepted(w, e, u) then Times(multiset(AcceptedBy(w.reg, e.action.tick))[u], GapTo(m, e.now)) else 0
  }

  /** The gaps between the heartbeats accepted for a server, each weighted by its listings. */
  ghost function WeightedSpan(events: seq<Event>, u: Uuid): nat
    requires IsRun(events)
  {
    if events == [] then 0
    else
      var n := |events| - 1;
      RawsGrow(events, n);
      WeightedSpan(events[..n], u) + WeightedGap(MeterOf(events[..n], u), Run(events[..n]), events[n], u)
  }

  /** No heartbeat lists the server twice. */
  ghost predicate ListedOnce(events: seq<Event>, u: Uuid) {
    forall i :: 0 <= i < |events| && events[i].action.Monitoring? && events[i].action.tick.Beat?
      ==> multiset(events[i].action.tick.listed)[u] <= 1
  }

  // ---- the invariant ----

  ghost predicate SeenNoLaterThan(agents: seq<Agent>, clock: Stamp) {
    forall a :: 0 <= a < |agents| && agents[a].lastSeen.Some? ==> agents[a].lastSeen.value <= clock
  }

  ghost predicate Metered(reg: Registry, u: Uuid, m: Meter, span: nat, tight: bool, clock: Stamp) {
    && SeenNoLaterThan(reg.agents, clock)
    && match m
       case Off =>
         span == 0 && (u in reg.servers ==> reg.servers[u].onlineSeconds == 0 && reg.servers[u].status != Online)
       case Running(first, mark) =>
         && u in reg.servers && first <= mark <= clock
         && reg.servers[u].onlineSeconds <= span
         && (reg.servers[u].onlineSeconds == span <==> tight)
         && (OwnerSeen(reg, u).Some? ==> mark <= OwnerSeen(reg, u).value)
  }

  lemma GainIsTheGap(seen: Stamp, now: Time, raw: int)
    requires seen <= StampOf(now)
    ensures Gain(Some(seen), now, raw)
         == if 0 < StampOf(now) - seen <= MaxStep(raw) then StampOf(now) - seen else 0
  {
    assert seen * MICROS <= StampOf(now) * MICROS <= now;
    WholeSecondsAreStampDifference(seen, now);
  }

  lemma AddedCounts(front: seq<string>, kept: seq<string>, last: string, u: string, keepLast: bool, keepU: bool)
    requires multiset(kept)[u] == (if keepU then multiset(front)[u] else 0) && (last == u ==> keepLast == keepU)
    ensures multiset(kept + if keepLast then [last] else [])[u] == if keepU then multiset(front + [last])[u] else 0
  {
  }

  lemma {:induction false} AcceptedCount(reg: Registry, agent: nat, listed: seq<string>, u: Uuid)
    ensures multiset(AcceptedOf(reg, agent, listed))[u] == if Accepts(reg, agent, u) then multiset(listed)[u] else 0
  {
    var n := |listed|;
    if n > 0 {
      hide *;
      var front, last := listed[..n - 1], listed[n - 1];
      AcceptedCount(reg, agent, front, u);
      assert listed == front + [last];
      AnswerStep(reg, agent, front, last);
      AddedCounts(front, AcceptedOf(reg, agent, front), last, u, Accepts(reg, agent, last), Accepts(reg, agent, u));
    }
  }

  lemma AcceptedOnce(reg: Registry, t: Tick, u: Uuid)
    requires t.Beat? ==> multiset(t.listed)[u] <= 1
    ensures multiset(AcceptedBy(reg, t))[u] == if u in AcceptedBy(reg, t) then 1 else 0
  {
    if t.Beat? {
      AcceptedCount(reg, t.agent, t.listed, u);
    }
  }

  /** Where a tick leaves the owner's `last_seen_at`. */
  lemma TickSeen(w: World, t: Tick, now: Time, raw: int, u: Uuid)
    requires u in w.reg.servers
    ensures var after := Ticked(w, t, now, raw).reg;
            && OwnerSeen(after, u) in {OwnerSeen(w.reg, u), Some(StampOf(now))}
            && (u in AcceptedBy(w.reg, t) ==> OwnerSeen(after, u) == Some(StampOf(now)))
            && (!t.Beat? && !t.LegacyBeat? ==> OwnerSeen(after, u) == OwnerSeen(w.reg, u))
  {
    TickRegistry(w, t, now, raw);
  }

  lemma TickKeepsClock(w: World, t: Tick, now: Time, raw: int, clock: Stamp)
    requires SeenNoLaterThan(w.reg.agents, clock) && clock <= StampOf(now)
    ensures SeenNoLaterThan(Ticked(w, t, now, raw).reg.agents, StampOf(now))
  {
    TickRegistry(w, t, now, raw);
  }

  lemma {:induction false} TimesMonotone(n: nat, x: nat, y: nat)
    requires n > 0 && x <= y
    ensures Times(n, x) <= Times(n, y) && (Times(n, x) == Times(n, y) <==> x == y)
  {
    if n > 1 {
      TimesMonotone(n - 1, x, y);
    }
  }

  lemma GainWithinGap(m: Meter, seen: Option<Stamp>, now: Time, raw: int)
    requires m.Running? && m.mark <= StampOf(now) && (seen.Some? ==> m.mark <= seen.value <= StampOf(now))
    ensures Gain(seen, now, raw) <= GapTo(m, now)
    ensures Gain(seen, now, raw) == GapTo(m, now)
       <==> StampOf(now) == m.mark || (seen == Some(m.mark) && StampOf(now) - m.mark <= MaxStep(raw))
    ensures MaxStep(raw) == if Threshold(raw) < 0 then 5 else Threshold(raw) + 5
  {
    if seen.Some? {
      GainIsTheGap(seen.value, now, raw);
    }
  }

  /**
   What an accepted heartbeat counts is at most the time since the last
   one, and all of it exactly when it is tight.
   */
  lemma AcceptedGain(w: World, e: Event, u: Uuid, m: Meter, clock: Stamp)
    requires u in w.reg.servers && m.Running? && m.mark <= clock <= StampOf(e.now) && Accepted(w, e, u)
    requires SeenNoLaterThan(w.reg.agents, clock)
    requires OwnerSeen(w.reg, u).Some? ==> m.mark <= OwnerSeen(w.reg, u).value
    ensures var earned := Earned(w, e.action.tick, e.now, e.raw, u);
            earned <= WeightedGap(m, w, e, u) && (earned == WeightedGap(m, w, e, u) <==> Tight(m, w, e, u))
  {
    var seen, n := OwnerSeen(w.reg, u), multiset(AcceptedBy(w.reg, e.action.tick))[u];
    GainWithinGap(m, seen, e.now, e.raw);
    TimesMonotone(n, if w.reg.servers[u].status == Online then Gain(seen, e.now, e.raw) else 0, GapTo(m, e.now));
    TimesNothing(n);
  }

  lemma {:induction false} TimesNothing(n: nat)
    ensures Times(n, 0) == 0
  {
    if n > 0 {
      TimesNothing(n - 1);
    }
  }

  lemma AcceptedMetered(w: World, e: Event, u: Uuid, m: Meter, span: nat, tight: bool, clock: Stamp)
    requires Metered(w.reg, u, m, span, tight, clock) && clock <= StampOf(e.now) && Accepted(w, e, u)
             && (m.Off? ==> tight)
    ensures var after := Ticked(w, e.action.tick, e.now, e.raw);
            Metered(after.reg, u, MeterStep(m, w, e, after, u), span + WeightedGap(m, w, e, u),
                    tight && Tight(m, w, e, u), StampOf(e.now))
  {
    TickKeepsClock(w, e.action.tick, e.now, e.raw, clock);
    TickEffect(w, e.action.tick, e.now, e.raw, u);
    TickSeen(w, e.action.tick, e.now, e.raw, u);
    if m.Running? {
      AcceptedGain(w, e, u, m, clock);
    } else {
      TimesNothing(multiset(AcceptedBy(w.reg, e.action.tick))[u]);
    }
  }

  /** A tick that accepts nothing for `u` adds nothing to it. */
  lemma OtherTickMetered(w: World, e: Event, u: Uuid, m: Meter, span: nat, tight: bool, clock: Stamp)
    requires e.action.Monitoring? && !Accepted(w, e, u)
    requires Metered(w.reg, u, m, span, tight, clock) && clock <= StampOf(e.now) && (m.Off? ==> tight)
    ensures var after := Ticked(w, e.action.tick, e.now, e.raw);
            Metered(after.reg, u, MeterStep(m, w, e, after, u), span + WeightedGap(m, w, e, u),
                    tight && Tight(m, w, e, u), StampOf(e.now))
  {
    TickKeepsClock(w, e.action.tick, e.now, e.raw, clock);
    TickRegistry(w, e.action.tick, e.now, e.raw);
    if u in w.reg.servers {
      TickEffect(w, e.action.tick, e.now, e.raw, u);
      TickSeen(w, e.action.tick, e.now, e.raw, u);
    }
  }

  /** A registration only ever clears `last_seen_at`, and always that of the agent it ends with. */
  lemma AttachClears(servers: map<Uuid, Server>, agents: seq<Agent>, u: Uuid, installation: string)
    requires OwnersExist(servers, agents) && u in servers
    ensures var (servers', agents', id) := Provisioning.Attached(servers, agents, u, installation);
            && |agents| <= |agents'| && id < |agents'| && agents'[id].lastSeen == None
            && servers' == servers[u := servers'[u]] && servers'[u].agentId == Some(id)
            && (forall a :: 0 <= a < |agents'| && agents'[a].lastSeen.Some? ==>
                  a < |agents| && agents'[a].lastSeen == agents[a].lastSeen)
  {
  }

  /** No agent is seen that was not, and a server whose owner is seen has not moved. */
  ghost predicate OnlyClears(reg: Registry, after: Registry, u: Uuid) {
    && |reg.agents| <= |after.agents|
    && (forall a :: 0 <= a < |after.agents| && after.agents[a].lastSeen.Some? ==>
          a < |reg.agents| && after.agents[a].lastSeen == reg.agents[a].lastSeen)
    && (OwnerSeen(after, u).Some? ==> u in reg.servers && after.servers[u].agentId == reg.servers[u].agentId)
  }

  lemma RegisterClears(reg: Registry, raw: string, m: Provisioning.Metadata, now: Time, u: Uuid)
    requires RegOk(reg)
    ensures OnlyClears(reg, Provisioning.Register(reg, raw, m, now).0, u)
  {
    var found := Provisioning.FindToken(reg.tokens, raw);
    if found.Some? && m.installation.Some? {
      AttachClears(reg.servers, reg.agents, reg.tokens[found.value].server, m.installation.value);
    }
  }

  /** Provisioning leaves online time alone, and can only clear an owner's `last_seen_at`. */
  lemma ChangeClears(reg: Registry, c: Change, now: Time, u: Uuid)
    requires RegOk(reg)
    ensures OnlyClears(reg, Changed(reg, c, now), u)
  {
    if c.Register? {
      RegisterClears(reg, c.raw, c.metadata, now, u);
    } else {
      OtherChangeRow(reg, c, now, u);
    }
  }

  lemma ChangeClearsOwner(reg: Registry, c: Change, now: Time, u: Uuid)
    requires RegOk(reg)
    ensures var after := Changed(reg, c, now);
            OwnerSeen(after, u).Some? ==> OwnerSeen(after, u) == OwnerSeen(reg, u)
  {
    ChangeClears(reg, c, now, u);
  }

  lemma ChangeKeepsTime(reg: Registry, c: Change, now: Time, u: Uuid)
    requires RegOk(reg)
    ensures var after := Changed(reg, c, now);
            && (u in reg.servers ==>
                  u in after.servers && after.servers[u].onlineSeconds == reg.servers[u].onlineSeconds)
            && (u !in reg.servers && u in after.servers ==> after.servers[u].onlineSeconds == 0)
            && (u in after.servers && after.servers[u].status == Online ==>
                  u in reg.servers && reg.servers[u].status == Online)
  {
    ChangeRow(reg, c, now, u);
  }

  lemma ChangeMetered(w: World, e: Event, u: Uuid, m: Meter, span: nat, tight: bool, clock: Stamp)
    requires RegOk(w.reg) && e.action.Provision?
    requires Metered(w.reg, u, m, span, tight, clock) && clock <= StampOf(e.now)
    ensures Metered(Stepped(w, e).reg, u, MeterStep(m, w, e, Stepped(w, e), u), span + WeightedGap(m, w, e, u),
                    tight && Tight(m, w, e, u), StampOf(e.now))
  {
    ChangeClears(w.reg, e.action.change, e.now, u);
    ChangeClearsOwner(w.reg, e.action.change, e.now, u);
    ChangeKeepsTime(w.reg, e.action.change, e.now, u);
  }

  // ---- whole runs ----

  function ClockOf(events: seq<Event>): Stamp {
    if events == [] then 0 else StampOf(events[|events| - 1].now)
  }

  lemma {:induction false} RunIsMetered(events: seq<Event>, u: Uuid)
    requires IsRun(events)
    ensures Metered(Run(events).reg, u, MeterOf(events, u), WeightedSpan(events, u), AllTight(events, u),
                    ClockOf(events))
    ensures MeterOf(events, u).Off? ==> AllTight(events, u)
  {
    if events != [] {
      var n := |events| - 1;
      LastStep(events);
      RunIsMetered(events[..n], u);
      var w, e, clock := Run(events[..n]), events[n], ClockOf(events[..n]);
      var m, span, tight := MeterOf(events[..n], u), WeightedSpan(events[..n], u), AllTight(events[..n], u);
      ClockAdvances(events);
      if e.action.Provision? {
        ChangeMetered(w, e, u, m, span, tight, clock);
      } else if Accepted(w, e, u) {
        AcceptedMetered(w, e, u, m, span, tight, clock);
      } else {
        OtherTickMetered(w, e, u, m, span, tight, clock);
      }
    }
  }

  lemma ClockAdvances(events: seq<Event>)
    requires IsRun(events) && events != []
    ensures ClockOf(events[..|events| - 1]) <= ClockOf(events)
  {
    var n := |events| - 1;
    if n > 0 {
      StampMonotone(events[n - 1].now, events[n].now);
    }
  }

  /**
   Over any run of heartbeats, monitor jobs, detail reads and (re-)registrations, a
   server's online time never exceeds the gaps between the heartbeats accepted for it, each
   counted once for every time its heartbeat lists the server, and equals that sum exactly
   when every heartbeat was tight.
   */
  lemma {:induction false} OnlineTimeIsBoundedByListings(events: seq<Event>, u: Uuid)
    requires IsRun(events)
    ensures u in Run(events).reg.servers ==>
              var seconds := Run(events).reg.servers[u].onlineSeconds;
              seconds <= WeightedSpan(events, u) && (seconds == WeightedSpan(events, u) <==> AllTight(events, u))
  {
    RunIsMetered(events, u);
  }

  function Spanned(m: Meter): nat {
    if m.Running? && m.first <= m.mark then m.mark - m.first else 0
  }

  lemma SpanStep(w: World, e: Event, after: World, u: Uuid, m: Meter)
    requires Accepted(w, e, u) ==> multiset(AcceptedBy(w.reg, e.action.tick))[u] == 1
    requires m.Running? ==> m.first <= m.mark <= StampOf(e.now)
    ensures Spanned(MeterStep(m, w, e, after, u)) == Spanned(m) + WeightedGap(m, w, e, u)
  {
    if Accepted(w, e, u) {
      assert Times(1, GapTo(m, e.now)) == GapTo(m, e.now);
    }
  }

  /** With no double listing the gaps add up to the time from the first heartbeat to the latest one. */
  lemma {:induction false} SpanWhenListedOnce(events: seq<Event>, u: Uuid)
    requires IsRun(events) && ListedOnce(events, u)
    ensures WeightedSpan(events, u) == Spanned(MeterOf(events, u))
  {
    if events != [] {
      var n := |events| - 1;
      LastStep(events);
      SpanWhenListedOnce(events[..n], u);
      RunIsMetered(events[..n], u);
      ClockAdvances(events);
      var w, e := Run(events[..n]), events[n];
      if Accepted(w, e, u) {
        AcceptedOnce(w.reg, e.action.tick, u);
      }
      SpanStep(w, e, Run(events), u, MeterOf(events[..n], u));
    }
  }

  /**
   In particular, when no heartbeat lists a server twice, its online time never exceeds the time
   from the heartbeat that first brought it online to the latest one accepted for it, and equals
   that time exactly when every heartbeat in between was tight.
   */
  lemma {:induction false} OnlineTimeIsBounded(events: seq<Event>, u: Uuid)
    requires IsRun(events) && ListedOnce(events, u) && u in Run(events).reg.servers
    ensures var seconds, m := Run(events).reg.servers[u].onlineSeconds, MeterOf(events, u);
            && (m.Off? ==> seconds == 0)
            && (m.Running? ==>
                  && m.first <= m.mark <= ClockOf(events)
                  && seconds <= m.mark - m.first
                  && (seconds == m.mark - m.first <==> AllTight(events, u)))
  {
    RunIsMetered(events, u);
    SpanWhenListedOnce(events, u);
  }

  /**
   Listing a server twice counts the gap twice: the gain fits the gap
   exactly when nothing counts or nothing repeats.
   */
  lemma DuplicatesOvercount(w: World, agent: nat, listed: seq<string>, now: Time, raw: int, u: Uuid)
    requires u in w.reg.servers && w.reg.servers[u].status == Online && Authenticates(w.reg, agent)
             && Accepts(w.reg, agent, u)
    ensures u in Ticked(w, Beat(agent, listed), now, raw).reg.servers
    ensures var gap := Gain(w.reg.agents[agent].lastSeen, now, raw);
            var after := Ticked(w, Beat(agent, listed), now, raw).reg.servers[u];
            var gained := after.onlineSeconds - w.reg.servers[u].onlineSeconds;
            && gained == multiset(listed)[u] * gap
            && (gained <= gap <==> multiset(listed)[u] <= 1 || gap == 0)
  {
    TickEffect(w, Beat(agent, listed), now, raw, u);
    AcceptedCount(w.reg, agent, listed, u);
    var gap, n := Gain(w.reg.agents[agent].lastSeen, now, raw), multiset(listed)[u];
    TimesIsProduct(n, gap);
    assert n >= 2 && gap > 0 ==> n * gap >= 2 * gap;
  }

  lemma {:induction false} TimesIsProduct(n: nat, x: nat)
    ensures Times(n, x) == n * x
  {
    if n > 0 {
      TimesIsProduct(n - 1, x);
    }
  }

  /**
   Stamps lose fractions, so the time between two stamps can exceed the time between
   the instants, by less than a second, and not at all when the first is a whole second.
   */
  lemma StampsVersusInstants(first: Time, last: Time)
    requires first <= last
    ensures (StampOf(last) - StampOf(first)) * MICROS < last - first + MICROS
    ensures first % MICROS == 0 ==> (StampOf(last) - StampOf(first)) * MICROS <= last - first
  {
    assert first == StampOf(first) * MICROS + first % MICROS;
    assert last == StampOf(last) * MICROS + last % MICROS;
  }
}
