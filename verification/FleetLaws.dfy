/** Laws of whole runs, provisioning and monitoring steps mixed at will. */
module FleetLaws {
  import opened Common
  import opened Clock
  import opened Schema
  import opened Database
  import opened Effects
  import opened Fleet
  import opened ProvisioningLaws
  import opened TokenLaws
  import Monitor
  import Provisioning

  lemma PrefixIsRun(events: seq<Event>, k: nat)
    requires IsRun(events) && k <= |events|
    ensures IsRun(events[..k])
  {
  }

  /** The last step of a run. */
  lemma {:induction false} LastStep(events: seq<Event>)
    requires IsRun(events) && events != []
    ensures var n := |events| - 1;
            IsRun(events[..n]) && Run(events) == Stepped(Run(events[..n]), events[n])
    ensures Advances(Run(events[..|events| - 1]).reg.tokens, Run(events).reg.tokens)
  {
    var n := |events| - 1;
    RawsGrow(events, n);
    StepKeeps(Run(events[..n]), events[n]);
  }

  // ---- tokens ----

  /** Along a run, tokens are only added and a token's status only ever leaves `active`. */
  lemma {:induction false} TokensAdvance(events: seq<Event>, k: nat)
    requires IsRun(events) && k <= |events|
    ensures IsRun(events[..k]) && Advances(Run(events[..k]).reg.tokens, Run(events).reg.tokens)
  {
    if k == |events| {
      assert events[..k] == events;
    } else {
      var n := |events| - 1;
      LastStep(events);
      TokensAdvance(events[..n], k);
      assert events[..n][..k] == events[..k];
      AdvancesTransitive(Run(events[..k]).reg.tokens, Run(events[..n]).reg.tokens, Run(events).reg.tokens);
    }
  }

  /** Step `i` of a run is a registration that succeeds with this token. */
  ghost predicate RegistersAt(events: seq<Event>, i: nat, raw: string)
    requires IsRun(events) && i < |events|
  {
    var e := events[i];
    PrefixIsRun(events, i);
    && e.action.Provision? && e.action.change.Register? && e.action.change.raw == raw
    && Provisioning.Register(Run(events[..i]).reg, raw, e.action.change.metadata, e.now).1.Registered?
  }

  ghost predicate Spent(tokens: seq<Token>, raw: string) {
    exists t :: 0 <= t < |tokens| && tokens[t].raw == raw && tokens[t].status != TokenActive
  }

  lemma SpentIsRefused(reg: Registry, raw: string, m: Provisioning.Metadata, now: Time)
    requires RegOk(reg) && Spent(reg.tokens, raw)
    ensures Provisioning.Register(reg, raw, m, now) == (reg, Provisioning.Gone)
  {
    var t :| 0 <= t < |reg.tokens| && reg.tokens[t].raw == raw && reg.tokens[t].status != TokenActive;
    SpentTokenIsRefused(reg, t, m, now);
  }

  lemma SpentStays(before: seq<Token>, after: seq<Token>, raw: string)
    requires Spent(before, raw) && Advances(before, after)
    ensures Spent(after, raw)
  {
    var t :| 0 <= t < |before| && before[t].raw == raw && before[t].status != TokenActive;
    assert after[t].raw == raw && after[t].status != TokenActive;
  }

  lemma RegisterSpendsToken(reg: Registry, raw: string, m: Provisioning.Metadata, now: Time)
    requires RegOk(reg) && Provisioning.Register(reg, raw, m, now).1.Registered?
    ensures Spent(Provisioning.Register(reg, raw, m, now).0.tokens, raw)
  {
    RegisterKeeps(reg, raw, m, now);
    var after := Provisioning.Register(reg, raw, m, now).0.tokens;
    var i :| 0 <= i < |reg.tokens| && reg.tokens[i].raw == raw && after[i].status == TokenUsed;
    assert after[i].raw == raw;
  }

  lemma RegisterSpends(w: World, e: Event)
    requires RegOk(w.reg) && e.action.Provision? && e.action.change.Register?
    requires Provisioning.Register(w.reg, e.action.change.raw, e.action.change.metadata, e.now).1.Registered?
    ensures Spent(Stepped(w, e).reg.tokens, e.action.change.raw)
  {
    RegisterSpendsToken(w.reg, e.action.change.raw, e.action.change.metadata, e.now);
  }

  lemma RegisteringSpends(events: seq<Event>, i: nat, raw: string)
    requires IsRun(events) && i < |events| && RegistersAt(events, i, raw)
    ensures IsRun(events[..i + 1]) && Spent(Run(events[..i + 1]).reg.tokens, raw)
  {
    var e := events[i];
    PrefixIsRun(events, i);
    PrefixIsRun(events, i + 1);
    LastStep(events[..i + 1]);
    assert events[..i + 1][..i] == events[..i] && events[..i + 1][i] == e;
    RegisterSpends(Run(events[..i]), e);
  }

  /** A token completes at most one registration in any run. */
  lemma TokenRegistersOnce(events: seq<Event>, i: nat, j: nat, raw: string)
    requires IsRun(events) && i < j < |events|
    ensures !(RegistersAt(events, i, raw) && RegistersAt(events, j, raw))
  {
    if RegistersAt(events, i, raw) {
      SpentAfterwards(events, i, j, raw);
    }
  }

  lemma SpentAfterwards(events: seq<Event>, i: nat, j: nat, raw: string)
    requires IsRun(events) && i < j < |events| && RegistersAt(events, i, raw)
    ensures !RegistersAt(events, j, raw)
  {
    RegisteringSpends(events, i, raw);
    PrefixIsRun(events, j);
    TokensAdvance(events[..j], i + 1);
    assert events[..j][..i + 1] == events[..i + 1];
    SpentStays(Run(events[..i + 1]).reg.tokens, Run(events[..j]).reg.tokens, raw);
    if events[j].action.Provision? && events[j].action.change.Register? {
      SpentIsRefused(Run(events[..j]).reg, raw, events[j].action.change.metadata, events[j].now);
    }
  }

  // ---- where a token comes from, and how long it can be presented ----

  /** The server a change issues a token for. */
  function TargetOf(c: Change): Option<Uuid> {
    match c
    case GenerateToken(u, _) => Some(u)
    case RegenerateToken(u, _) => Some(u)
    case ForceReinstall(u, _) => Some(u)
    case _ => None
  }

  lemma ChangeCarries(reg: Registry, c: Change, now: Time)
    requires RegOk(reg)
    ensures Carries(reg.tokens, Changed(reg, c, now).tokens, IssuedRaw(c), TargetOf(c), now)
  {
    match c
    case CreateServer(_, _) =>
    case GenerateToken(u, raw) =>
      if u in reg.servers { GenerateCarries(reg, u, raw, now); }
    case RegenerateToken(u, raw) =>
      if u in reg.servers { RegenerateCarries(reg, u, raw, now); }
    case ForceReinstall(u, raw) =>
      if u in reg.servers { ForceReinstallCarries(reg, u, raw, now); }
    case Register(raw, m) => RegisterCarries(reg, raw, m, now);
    case CheckExpiration(u) =>
      if u in reg.servers { CheckExpirationCarries(reg, u, now); }
    case CleanupTokens => CleanupCarries(reg.tokens, now);
  }

  /** Every token of a run was issued by one of its steps, and expires half an hour after the second of that step. */
  lemma {:induction false} TokenComesFrom(events: seq<Event>, i: nat) returns (k: nat)
    requires IsRun(events) && i < |Run(events).reg.tokens|
    ensures AllDatesTell(Run(events).reg.tokens)
    ensures var t := Run(events).reg.tokens[i];
            && k < |events| && events[k].action.Provision?
            && IssuedRaw(events[k].action.change) == Some(t.raw) && TargetOf(events[k].action.change) == Some(t.server)
            && t.expiresAt == StampOf(events[k].now) + 1800
  {
    var n := |events| - 1;
    LastStep(events);
    DatesTellInRuns(events);
    var w, e := Run(events[..n]), events[n];
    match e.action
    case Monitoring(t) =>
      TickRegistry(w, t, e.now, e.raw);
      k := TokenComesFrom(events[..n], i);
    case Provision(c) =>
      ChangeCarries(w.reg, c, e.now);
      assert Carried(w.reg.tokens, Run(events).reg.tokens, i, IssuedRaw(c), TargetOf(c), e.now);
      if i < |w.reg.tokens| {
        k := TokenComesFrom(events[..n], i);
      } else {
        k := n;
      }
  }

  lemma {:induction false} DatesTellInRuns(events: seq<Event>)
    requires IsRun(events)
    ensures AllDatesTell(Run(events).reg.tokens)
  {
    if events != [] {
      var n := |events| - 1;
      LastStep(events);
      DatesTellInRuns(events[..n]);
      var w, e := Run(events[..n]), events[n];
      match e.action
      case Monitoring(t) => TickRegistry(w, t, e.now, e.raw);
      case Provision(c) => ChangeCarries(w.reg, c, e.now);
    }
  }

  /**
   Over every run: the bootstrap accepts a token exactly while its status is active and thirty
   minutes have not passed since the second in which it was issued.
   */
  lemma {:induction false} PresentedExactlyWhile(events: seq<Event>, i: nat, now: Time) returns (k: nat)
    requires IsRun(events) && i < |Run(events).reg.tokens|
    ensures k < |events| && events[k].action.Provision?
    ensures IssuedRaw(events[k].action.change) == Some(Run(events).reg.tokens[i].raw)
    ensures Provisioning.IsValid(Run(events).reg.tokens[i], now)
       <==> && Run(events).reg.tokens[i].status == TokenActive
            && now <= InstantOf(StampOf(events[k].now)) + 1_800_000_000
  {
    k := TokenComesFrom(events, i);
    ValidWhenActiveInTime(Run(events).reg.tokens[i], now);
  }

  // ---- from a token to the first heartbeat ----

  function Issue(reg: Registry, u: Uuid, raw: string, force: bool, now: Time): (Registry, Provisioning.GenerateResult)
    requires u in reg.servers
  {
    if force then Provisioning.ForceReinstall(reg, u, raw, now) else Provisioning.Generate(reg, u, raw, now)
  }

  lemma IssueKeeps(reg: Registry, u: Uuid, raw: string, force: bool, now: Time)
    requires RegOk(reg) && u in reg.servers && RawIsNew(reg.tokens, raw)
    ensures RegOk(Issue(reg, u, raw, force, now).0)
  {
    if force {
      ForceReinstallKeeps(reg, u, raw, now);
    } else {
      GenerateKeeps(reg, u, raw, now);
    }
  }

  /** The issued token is the last row, active, and the server is in service again. */
  lemma IssuedIsLast(reg: Registry, u: Uuid, raw: string, force: bool, now: Time)
    requires u in reg.servers && Issue(reg, u, raw, force, now).1.Issued?
    ensures var after := Issue(reg, u, raw, force, now).0;
            && after.tokens != []
            && after.tokens[|after.tokens| - 1] == Provisioning.NewToken(u, raw, now)
            && u in after.servers && !Monitor.Decommissioned(after.servers[u])
  {
  }

  /** A registration with an active token makes its installation the one agent that is heard for the server. */
  lemma RegisteredOwner(reg: Registry, i: nat, m: Provisioning.Metadata, now: Time)
    requires RegOk(reg) && i < |reg.tokens| && reg.tokens[i].status == TokenActive && Provisioning.AcceptableMetadata(m)
    requires reg.tokens[i].server in reg.servers && !Monitor.Decommissioned(reg.servers[reg.tokens[i].server])
    ensures var u, (after, result) := reg.tokens[i].server, Provisioning.Register(reg, reg.tokens[i].raw, m, now);
            && result.Registered? && result.server == u
            && result.agent < |after.agents| && after.agents[result.agent].installation == m.installation.value
            && u in AcceptedBy(after, LegacyBeat(result.agent, u))
            && forall t :: u in AcceptedBy(after, t) ==> SeenBy(after, t) == Some(result.agent)
  {
    var found := Provisioning.FindToken(reg.tokens, reg.tokens[i].raw);
    assert found.value == i;
    AdoptedAgentAfterAttach(reg.servers, reg.agents, reg.tokens[i].server, m.installation.value);
  }

  /**
   The way in, step after step: an issued token registers whatever installation presents it,
   however late; then that installation alone is heard for the server, and any heartbeat
   accepted for the server brings it online.
   */
  lemma ProvisionedServerComesOnline(
    w: World, u: Uuid, raw: string, force: bool, issued: Time, m: Provisioning.Metadata, registered: Time)
    requires RegOk(w.reg) && u in w.reg.servers && RawIsNew(w.reg.tokens, raw) && Provisioning.AcceptableMetadata(m)
    requires Issue(w.reg, u, raw, force, issued).1.Issued?
    ensures RegOk(Issue(w.reg, u, raw, force, issued).0)
    ensures var (reg, result) := Provisioning.Register(Issue(w.reg, u, raw, force, issued).0, raw, m, registered);
            && result.Registered? && result.server == u && u in reg.servers
            && result.agent < |reg.agents| && reg.agents[result.agent].installation == m.installation.value
            && u in AcceptedBy(reg, LegacyBeat(result.agent, u))
            && (forall t :: u in AcceptedBy(reg, t) ==> SeenBy(reg, t) == Some(result.agent))
            && (forall t, beat, setting :: u in AcceptedBy(reg, t) ==>
                  var after := Ticked(w.(reg := reg), t, beat, setting).reg;
                  u in after.servers && after.servers[u].status == Online)
  {
    var reg := Issue(w.reg, u, raw, force, issued).0;
    IssueKeeps(w.reg, u, raw, force, issued);
    IssuedIsLast(w.reg, u, raw, force, issued);
    RegisteredOwner(reg, |reg.tokens| - 1, m, registered);
    var (next, result) := Provisioning.Register(reg, raw, m, registered);
    forall t, beat, setting | u in AcceptedBy(next, t)
      ensures var after := Ticked(w.(reg := next), t, beat, setting).reg;
              u in after.servers && after.servers[u].status == Online
    {
      TickEffect(w.(reg := next), t, beat, setting, u);
    }
  }

  // ---- action items ----

  /** No provisioning step makes a server online or offline. */
  lemma ChangeMakesNeither(reg: Registry, c: Change, now: Time, u: Uuid)
    requires RegOk(reg) && u in Changed(reg, c, now).servers
             && Changed(reg, c, now).servers[u].status in {Online, Offline}
    ensures u in reg.servers && reg.servers[u].status == Changed(reg, c, now).servers[u].status
  {
    ChangeRow(reg, c, now, u);
  }

  /** In every run a server stored as online has no open `server_offline` item, and one stored as offline has one. */
  lemma {:induction false} BoardAgreesWithStatus(events: seq<Event>, u: Uuid)
    requires IsRun(events)
    ensures u in Run(events).reg.servers && Run(events).reg.servers[u].status == Online
            ==> !HasOpenItem(Run(events).items, u)
    ensures u in Run(events).reg.servers && Run(events).reg.servers[u].status == Offline
            ==> HasOpenItem(Run(events).items, u)
  {
    if events != [] {
      var n := |events| - 1;
      LastStep(events);
      BoardAgreesWithStatus(events[..n], u);
      if u in Run(events).reg.servers {
        var w, e := Run(events[..n]), events[n];
        match e.action
        case Monitoring(t) =>
          TickRegistry(w, t, e.now, e.raw);
          TickEffect(w, t, e.now, e.raw, u);
        case Provision(c) =>
          if Run(events).reg.servers[u].status in {Online, Offline} {
            ChangeMakesNeither(w.reg, c, e.now, u);
          }
      }
    }
  }
}
