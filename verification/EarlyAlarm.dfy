/** A run in which the early alarm happens: a second registration silences a server that was just heard. */
module EarlyAlarm {
  import opened Common
  import opened Clock
  import opened Schema
  import opened Database
  import opened Monitor
  import opened DetectionLaws
  import opened Fleet
  import opened FleetLaws
  import opened HeardLaws
  import opened ProvisioningLaws
  import Provisioning

  /** Two servers, their two tokens, and the installation that registers with both. */
  datatype Cast = Cast(u: Uuid, v: Uuid, x: string, y: string, m: Provisioning.Metadata, raw: int)

  predicate Distinct(c: Cast) {
    c.u != c.v && c.x != c.y && Provisioning.AcceptableMetadata(c.m)
  }

  /**
   At one instant, step by step: the installation registers for the first
   server and beats, then registers for the second.
   */
  function StepOf(c: Cast, k: nat): Event
    requires k < 7
  {
    Event(0, c.raw,
          if k == 0 then Provision(CreateServer(c.u, 1))
          else if k == 1 then Provision(CreateServer(c.v, 1))
          else if k == 2 then Provision(GenerateToken(c.u, c.x))
          else if k == 3 then Provision(Register(c.x, c.m))
          else if k == 4 then Monitoring(LegacyBeat(0, c.u))
          else if k == 5 then Provision(GenerateToken(c.v, c.y))
          else Provision(Register(c.y, c.m)))
  }

  function Steps(c: Cast, k: nat): (events: seq<Event>)
    requires k <= 7
    ensures |events| == k && forall i :: 0 <= i < k ==> events[i] == StepOf(c, i)
  {
    if k == 0 then [] else Steps(c, k - 1) + [StepOf(c, k - 1)]
  }

  lemma {:induction false} StepsAreARun(c: Cast, k: nat)
    requires Distinct(c) && k <= 7
    ensures IsRun(Steps(c, k))
  {
  }

  lemma OneMore(c: Cast, k: nat)
    requires Distinct(c) && k < 7
    ensures IsRun(Steps(c, k)) && IsRun(Steps(c, k + 1))
    ensures Steps(c, k + 1)[..k] == Steps(c, k) && Steps(c, k + 1)[k] == StepOf(c, k)
    ensures Run(Steps(c, k + 1)) == Stepped(Run(Steps(c, k)), StepOf(c, k))
  {
    StepsAreARun(c, k + 1);
    StepsAreARun(c, k);
    LastStep(Steps(c, k + 1));
    assert Steps(c, k + 1)[..k] == Steps(c, k);
  }

  // ---- the registry on the way ----

  predicate IsNew(s: Server) {
    s.agentId.None? && s.status == PendingInstallation && !s.agentDeleted
  }

  predicate BothCreated(reg: Registry, c: Cast) {
    && c.u in reg.servers && IsNew(reg.servers[c.u])
    && c.v in reg.servers && IsNew(reg.servers[c.v])
    && reg.agents == [] && reg.tokens == []
  }

  predicate TokenIssued(reg: Registry, c: Cast) {
    && c.u in reg.servers && reg.servers[c.u].agentId.None? && !reg.servers[c.u].agentDeleted
    && c.v in reg.servers && IsNew(reg.servers[c.v])
    && reg.agents == [] && reg.tokens == [Provisioning.NewToken(c.u, c.x, 0)]
  }

  predicate FirstOwned(reg: Registry, c: Cast, status: Status) {
    && c.u in reg.servers && reg.servers[c.u].agentId == Some(0)
    && reg.servers[c.u].status == status && !reg.servers[c.u].agentDeleted
    && c.v in reg.servers && IsNew(reg.servers[c.v])
    && |reg.agents| == 1 && Some(reg.agents[0].installation) == c.m.installation
    && |reg.tokens| == 1 && reg.tokens[0].raw == c.x && reg.tokens[0].status == TokenUsed
  }

  predicate SecondIssued(reg: Registry, c: Cast) {
    && c.u in reg.servers && reg.servers[c.u].agentId == Some(0) && reg.servers[c.u].status == Online
    && c.v in reg.servers && reg.servers[c.v].agentId.None?
    && |reg.agents| == 1 && Some(reg.agents[0].installation) == c.m.installation
    && |reg.tokens| == 2 && reg.tokens[0].raw == c.x && reg.tokens[1] == Provisioning.NewToken(c.v, c.y, 0)
  }

  lemma {:induction false} CreatesBoth(c: Cast)
    requires Distinct(c)
    ensures IsRun(Steps(c, 2)) && BothCreated(Run(Steps(c, 2)).reg, c)
  {
    OneMore(c, 0);
    OneMore(c, 1);
    assert Steps(c, 0) == [] && Run([]) == EMPTY;
  }

  lemma IssuesFirst(reg: Registry, c: Cast)
    requires Distinct(c) && RegOk(reg) && BothCreated(reg, c)
    ensures TokenIssued(Changed(reg, GenerateToken(c.u, c.x), 0), c)
  {
    assert Provisioning.RevokedActive([], c.u, 0) == [];
  }

  lemma RegistersFirst(reg: Registry, c: Cast)
    requires Distinct(c) && RegOk(reg) && TokenIssued(reg, c)
    ensures FirstOwned(Changed(reg, Register(c.x, c.m), 0), c, WaitingForFirstHeartbeat)
  {
    assert Provisioning.FindToken(reg.tokens, c.x) == Some(0);
    assert Provisioning.FindAgent(reg.agents, c.m.installation.value) == None;
  }

  lemma HearsFirst(w: World, c: Cast)
    requires Distinct(c) && RegOk(w.reg) && FirstOwned(w.reg, c, WaitingForFirstHeartbeat)
    ensures SeenBy(w.reg, LegacyBeat(0, c.u)) == Some(0)
    ensures FirstOwned(Ticked(w, LegacyBeat(0, c.u), 0, c.raw).reg, c, Online)
  {
    OwnersAreActive(w.reg, c.u);
    TickRegistry(w, LegacyBeat(0, c.u), 0, c.raw);
    TickEffect(w, LegacyBeat(0, c.u), 0, c.raw, c.u);
    TickEffect(w, LegacyBeat(0, c.u), 0, c.raw, c.v);
  }

  lemma IssuesSecond(reg: Registry, c: Cast)
    requires Distinct(c) && RegOk(reg) && FirstOwned(reg, c, Online)
    ensures SecondIssued(Changed(reg, GenerateToken(c.v, c.y), 0), c)
  {
    assert Provisioning.RevokedActive(reg.tokens, c.v, 0) == reg.tokens;
  }

  lemma RegistersSecond(reg: Registry, c: Cast)
    requires Distinct(c) && RegOk(reg) && SecondIssued(reg, c)
    ensures var (after, r) := Provisioning.Register(reg, c.y, c.m, 0);
            && r == Provisioning.Registered(0, c.v)
            && c.u in after.servers && after.servers[c.u] == reg.servers[c.u]
  {
    assert reg.tokens[1..] == [reg.tokens[1]];
    assert Provisioning.FindToken(reg.tokens[1..], c.y) == Some(0);
    assert Provisioning.FindToken(reg.tokens, c.y) == Some(1);
    assert Provisioning.FindAgent(reg.agents, c.m.installation.value) == Some(0);
  }

  // ---- the run ----

  lemma {:induction false} AfterFour(c: Cast)
    requires Distinct(c)
    ensures IsRun(Steps(c, 4)) && FirstOwned(Run(Steps(c, 4)).reg, c, WaitingForFirstHeartbeat)
  {
    CreatesBoth(c);
    OneMore(c, 2);
    IssuesFirst(Run(Steps(c, 2)).reg, c);
    OneMore(c, 3);
    RegistersFirst(Run(Steps(c, 3)).reg, c);
  }

  lemma {:induction false} AfterFive(c: Cast)
    requires Distinct(c)
    ensures IsRun(Steps(c, 5)) && FirstOwned(Run(Steps(c, 5)).reg, c, Online)
    ensures LastHeartbeat(Steps(c, 5), 0) == Some(0)
  {
    AfterFour(c);
    OneMore(c, 4);
    HearsFirst(Run(Steps(c, 4)), c);
  }

  lemma {:induction false} AfterSix(c: Cast)
    requires Distinct(c)
    ensures IsRun(Steps(c, 6)) && SecondIssued(Run(Steps(c, 6)).reg, c)
    ensures LastHeartbeat(Steps(c, 6), 0) == Some(0)
  {
    AfterFive(c);
    OneMore(c, 5);
    IssuesSecond(Run(Steps(c, 5)).reg, c);
  }

  lemma {:induction false} RegistrationShows(events: seq<Event>, agent: nat, beat: Time)
    requires IsRun(events) && events != [] && IsRun(events[..|events| - 1])
    requires LastHeartbeat(events[..|events| - 1], agent) == Some(beat)
    requires var r := Registration(Run(events[..|events| - 1]), events[|events| - 1]); r.Registered? && r.agent == agent
    ensures LastHeartbeat(events, agent) == Some(beat) && RegisteredSince(events, agent)
  {
  }

  lemma {:induction false} SilencedIsAlarmed(events: seq<Event>, u: Uuid, agent: nat, now: Time, raw: int)
    requires IsRun(events) && 0 <= raw < 1_000_000 && IsStored(Run(events).reg, u, Online)
    requires Run(events).reg.servers[u].agentId == Some(agent)
    requires RegisteredSince(events, agent) && HeardWithin(events, u, now, raw)
    ensures IsStored(Ticked(Run(events), RunMonitor(u), now, raw).reg, u, Offline)
  {
    AllInService(events, u);
    OwnersAreActive(Run(events).reg, u);
    CheckAlarmsEarlyExactlyWhen(events, RunMonitor(u), now, raw, u);
  }

  lemma {:induction false} HeardASecondAgo(events: seq<Event>, u: Uuid, agent: nat, raw: int)
    requires IsRun(events) && 0 <= raw < 1_000_000 && IsStored(Run(events).reg, u, Online)
    requires Run(events).reg.servers[u].agentId == Some(agent) && LastHeartbeat(events, agent) == Some(0)
    ensures HeardWithin(events, u, MICROS, raw)
  {
    BeatOfOwner(events, u, agent);
    OneSecondIsWithin(raw);
  }

  lemma {:induction false} BeatOfOwner(events: seq<Event>, u: Uuid, agent: nat)
    requires IsRun(events) && OwnerOf(Run(events).reg, u) == Some(agent)
    ensures OwnerBeat(events, u) == LastHeartbeat(events, agent)
  {
  }

  lemma OneSecondIsWithin(raw: int)
    requires 0 <= raw
    ensures MICROS <= InstantOf(StampOf(0)) + Threshold(raw) * MICROS
  {
  }

  /** In the end the first server is online, and its installation has registered since its heartbeat. */
  lemma {:induction false} LastRegistration(events: seq<Event>, c: Cast)
    requires Distinct(c) && IsRun(events) && events != [] && IsRun(events[..|events| - 1])
    requires events[|events| - 1] == Event(0, c.raw, Provision(Register(c.y, c.m)))
    requires SecondIssued(Run(events[..|events| - 1]).reg, c) && LastHeartbeat(events[..|events| - 1], 0) == Some(0)
    ensures LastHeartbeat(events, 0) == Some(0) && RegisteredSince(events, 0)
    ensures IsStored(Run(events).reg, c.u, Online) && Run(events).reg.servers[c.u].agentId == Some(0)
  {
    LastStep(events);
    RegistersSecond(Run(events[..|events| - 1]).reg, c);
    RegistrationShows(events, 0, 0);
  }

  lemma WholeRun(c: Cast) returns (events: seq<Event>)
    requires Distinct(c)
    ensures IsRun(events) && LastHeartbeat(events, 0) == Some(0) && RegisteredSince(events, 0)
    ensures IsStored(Run(events).reg, c.u, Online) && Run(events).reg.servers[c.u].agentId == Some(0)
  {
    AfterSix(c);
    OneMore(c, 6);
    events := Steps(c, 7);
    LastRegistration(events, c);
  }

  /**
   Then the alarm comes: under any valid setting a check one second after
   the heartbeat takes the first server offline.
   */
  lemma EarlyAlarmHappens(c: Cast) returns (events: seq<Event>)
    requires Distinct(c) && 0 <= c.raw < 1_000_000
    ensures IsRun(events)
    ensures IsStored(Run(events).reg, c.u, Online) && HeardWithin(events, c.u, MICROS, c.raw)
    ensures IsStored(Ticked(Run(events), RunMonitor(c.u), MICROS, c.raw).reg, c.u, Offline)
  {
    events := WholeRun(c);
    HeardASecondAgo(events, c.u, 0, c.raw);
    SilencedIsAlarmed(events, c.u, 0, MICROS, c.raw);
  }
}
