/** What every provisioning step keeps: who owns what, and the life of a token. */
module ProvisioningLaws {
  import opened Common
  import opened Clock
  import opened Schema
  import opened Database
  import opened Provisioning

  // ---- ownership ----

  ghost predicate Owns(servers: map<Uuid, Server>, a: nat) {
    exists u :: u in servers && servers[u].agentId == Some(a)
  }

  ghost predicate OwnersExist(servers: map<Uuid, Server>, agents: seq<Agent>) {
    forall u :: u in servers && servers[u].agentId.Some? ==> servers[u].agentId.value < |agents|
  }

  /** An agent is active exactly when some server points at it. */
  ghost predicate ActiveIffOwns(servers: map<Uuid, Server>, agents: seq<Agent>) {
    forall a :: 0 <= a < |agents| ==> (agents[a].status == Active <==> Owns(servers, a))
  }

  ghost predicate InstallationsDistinct(agents: seq<Agent>) {
    forall a, b :: 0 <= a < b < |agents| ==> agents[a].installation != agents[b].installation
  }

  /** A legacy pointer names a server the agent owns. */
  ghost predicate PointersOwned(servers: map<Uuid, Server>, agents: seq<Agent>) {
    forall a :: 0 <= a < |agents| && agents[a].serverId.Some? ==>
      agents[a].serverId.value in servers && servers[agents[a].serverId.value].agentId == Some(a)
  }

  ghost predicate Ownership(servers: map<Uuid, Server>, agents: seq<Agent>) {
    && OwnersExist(servers, agents)
    && ActiveIffOwns(servers, agents)
    && InstallationsDistinct(agents)
    && PointersOwned(servers, agents)
  }

  /** The owner of every server is an active agent, so the `agent` relation resolves whenever `agent_id` is set. */
  lemma OwnersAreActive(reg: Registry, u: Uuid)
    requires Ownership(reg.servers, reg.agents) && u in reg.servers
    ensures ActiveAgent(reg, reg.servers[u]) == reg.servers[u].agentId
  {
    if reg.servers[u].agentId.Some? {
      assert Owns(reg.servers, reg.servers[u].agentId.value);
    }
  }

  /** Steps that leave `agent_id`, installations, agent status and pointers alone keep ownership. */
  ghost predicate SameOwners(
    servers: map<Uuid, Server>, agents: seq<Agent>, servers': map<Uuid, Server>, agents': seq<Agent>)
  {
    && servers.Keys <= servers'.Keys
    && (forall u :: u in servers' ==> servers'[u].agentId == if u in servers then servers[u].agentId else None)
    && |agents'| == |agents|
    && (forall a :: 0 <= a < |agents| ==> agents'[a] == agents[a].(lastSeen := agents'[a].lastSeen))
  }

  lemma SameOwnersKeep(servers: map<Uuid, Server>, agents: seq<Agent>, servers': map<Uuid, Server>, agents': seq<Agent>)
    requires Ownership(servers, agents) && SameOwners(servers, agents, servers', agents')
    ensures Ownership(servers', agents')
  {
    forall a: nat
      ensures Owns(servers', a) <==> Owns(servers, a)
    {
      if u :| u in servers && servers[u].agentId == Some(a) {
        assert u in servers' && servers'[u].agentId == Some(a);
      }
      if u :| u in servers' && servers'[u].agentId == Some(a) {
        assert u in servers && servers[u].agentId == Some(a);
      }
    }
  }

  /** How ownership moves when server `u` goes to agent `id`. */
  lemma OwnsAfterMove(servers: map<Uuid, Server>, u: Uuid, s: Server, a: nat)
    requires u in servers
    ensures Owns(servers[u := s], a) <==> OwnsAnother(servers, a, u) || s.agentId == Some(a)
    ensures Owns(servers, a) <==> OwnsAnother(servers, a, u) || servers[u].agentId == Some(a)
  {
    var moved := servers[u := s];
    if v :| v in moved && moved[v].agentId == Some(a) {
      assert v != u ==> v in servers && servers[v].agentId == Some(a);
    }
    if v :| v in servers && v != u && servers[v].agentId == Some(a) {
      assert v in moved && moved[v].agentId == Some(a);
    }
    assert u in moved && moved[u] == s;
    if v :| v in servers && servers[v].agentId == Some(a) {
      assert v != u ==> OwnsAnother(servers, a, u);
    }
  }

  /** What a registration leaves of an agent row that is not the one it adopts. */
  lemma OtherAgentsAfterAttach(servers: map<Uuid, Server>, agents: seq<Agent>, u: Uuid, installation: string, a: nat)
    requires Ownership(servers, agents) && u in servers && a < |agents|
    requires a != Attached(servers, agents, u, installation).2
    ensures a < |Attached(servers, agents, u, installation).1|
    ensures var after := Attached(servers, agents, u, installation).1[a];
            && after.installation == agents[a].installation
            && (after.status == Active <==> OwnsAnother(servers, a, u))
            && (after.serverId.Some? ==> after.serverId == agents[a].serverId && after.serverId != Some(u))
  {
    OwnsAfterMove(servers, u, servers[u], a);
  }

  /** The agent a registration ends with: active, and its pointer names a server it owns. */
  lemma AdoptedAgentAfterAttach(servers: map<Uuid, Server>, agents: seq<Agent>, u: Uuid, installation: string)
    requires Ownership(servers, agents) && u in servers
    ensures var (after, rows, id) := Attached(servers, agents, u, installation);
            && id < |rows| && id <= |agents|
            && rows[id].status == Active
            && rows[id].installation == installation
            && rows[id].serverId.Some?
            && (rows[id].serverId == Some(u) || (id < |agents| && rows[id].serverId == agents[id].serverId))
            && (id < |agents| ==> agents[id].installation == installation)
            && (id == |agents| ==> forall a :: 0 <= a < |agents| ==> agents[a].installation != installation)
            && |rows| == if id == |agents| then |agents| + 1 else |agents|
  {
  }

  /** One agent row agrees with the servers that point at it. */
  ghost predicate AgentAgrees(servers: map<Uuid, Server>, agents: seq<Agent>, a: nat)
    requires a < |agents|
  {
    && (agents[a].status == Active <==> Owns(servers, a))
    && (agents[a].serverId.Some? ==>
          agents[a].serverId.value in servers && servers[agents[a].serverId.value].agentId == Some(a))
  }

  lemma AttachedAgentAgrees(servers: map<Uuid, Server>, agents: seq<Agent>, u: Uuid, installation: string, a: nat)
    requires Ownership(servers, agents) && u in servers
    requires a < |Attached(servers, agents, u, installation).1|
    ensures var (servers', agents', id) := Attached(servers, agents, u, installation);
            && AgentAgrees(servers', agents', a)
            && (a != id ==> a < |agents|)
            && agents'[a].installation == if a == id then installation else agents[a].installation
  {
    var (servers', agents', id) := Attached(servers, agents, u, installation);
    AdoptedAgentAfterAttach(servers, agents, u, installation);
    OwnsAfterMove(servers, u, servers'[u], a);
    if a != id {
      OtherAgentsAfterAttach(servers, agents, u, installation, a);
    }
  }

  /** A registration keeps all four facts about ownership. */
  lemma AttachKeepsOwnership(servers: map<Uuid, Server>, agents: seq<Agent>, u: Uuid, installation: string)
    requires Ownership(servers, agents) && u in servers
    ensures var (servers', agents', id) := Attached(servers, agents, u, installation);
            Ownership(servers', agents') && servers'[u].agentId == Some(id)
  {
    var (servers', agents', id) := Attached(servers, agents, u, installation);
    AdoptedAgentAfterAttach(servers, agents, u, installation);
    forall a | 0 <= a < |agents'|
      ensures AgentAgrees(servers', agents', a)
      ensures agents'[a].installation == if a == id then installation else agents[a].installation
    {
      AttachedAgentAgrees(servers, agents, u, installation, a);
    }
    assert InstallationsDistinct(agents');
    forall a | 0 <= a < |agents'|
      ensures agents'[a].status == Active <==> Owns(servers', a)
      ensures agents'[a].serverId.Some? ==>
                agents'[a].serverId.value in servers' && servers'[agents'[a].serverId.value].agentId == Some(a)
    {
      assert AgentAgrees(servers', agents', a);
    }
  }

  // ---- tokens ----

  ghost predicate TokensDistinct(tokens: seq<Token>) {
    forall i, j :: 0 <= i < j < |tokens| ==> tokens[i].raw != tokens[j].raw
  }

  /** At most one active token per server. */
  ghost predicate OneActiveEach(tokens: seq<Token>) {
    forall i, j :: 0 <= i < j < |tokens| && tokens[i].status == TokenActive && tokens[j].status == TokenActive
      ==> tokens[i].server != tokens[j].server
  }

  ghost predicate TokensOk(reg: Registry) {
    && TokensDistinct(reg.tokens)
    && OneActiveEach(reg.tokens)
    && forall i :: 0 <= i < |reg.tokens| ==> reg.tokens[i].server in reg.servers
  }

  /** Tokens are only added, and a token's status only ever leaves `active`. */
  ghost predicate Advances(before: seq<Token>, after: seq<Token>) {
    && |before| <= |after|
    && forall i :: 0 <= i < |before| ==>
         && after[i].raw == before[i].raw && after[i].server == before[i].server
         && (before[i].status == TokenActive || after[i].status == before[i].status)
  }

  ghost predicate RawIsNew(tokens: seq<Token>, raw: string) {
    forall i :: 0 <= i < |tokens| ==> tokens[i].raw != raw
  }

  lemma AdvancesTransitive(a: seq<Token>, b: seq<Token>, c: seq<Token>)
    requires Advances(a, b) && Advances(b, c)
    ensures Advances(a, c)
  {
  }

  lemma RevokingKeepsTokens(reg: Registry, u: Uuid, now: Time)
    requires TokensOk(reg)
    ensures TokensOk(reg.(tokens := RevokedActive(reg.tokens, u, now)))
    ensures Advances(reg.tokens, RevokedActive(reg.tokens, u, now))
    ensures forall i :: 0 <= i < |reg.tokens| ==> !IsActiveFor(RevokedActive(reg.tokens, u, now)[i], u)
  {
  }

  /** Issuing after revoking: the new token is the only active one of its server. */
  lemma IssuingKeepsTokens(reg: Registry, u: Uuid, raw: string, now: Time)
    requires TokensOk(reg) && u in reg.servers && RawIsNew(reg.tokens, raw)
    ensures TokensOk(reg.(tokens := RevokedActive(reg.tokens, u, now) + [NewToken(u, raw, now)]))
    ensures Advances(reg.tokens, RevokedActive(reg.tokens, u, now) + [NewToken(u, raw, now)])
  {
    RevokingKeepsTokens(reg, u, now);
  }

  lemma GenerateKeeps(reg: Registry, u: Uuid, raw: string, now: Time)
    requires TokensOk(reg) && Ownership(reg.servers, reg.agents) && u in reg.servers && RawIsNew(reg.tokens, raw)
    ensures var after := Generate(reg, u, raw, now).0;
            TokensOk(after) && Advances(reg.tokens, after.tokens) && Ownership(after.servers, after.agents)
  {
    var (after, result) := Generate(reg, u, raw, now);
    if result.Issued? {
      IssuingKeepsTokens(reg, u, raw, now);
      SameOwnersKeep(reg.servers, reg.agents, after.servers, after.agents);
    }
  }

  /**
   A token is issued exactly for a server that is not archived, has no owner and
   has no live token; it is then the only active one.
   */
  lemma GenerateIssuesExactlyWhen(reg: Registry, u: Uuid, raw: string, now: Time)
    requires TokensOk(reg) && Ownership(reg.servers, reg.agents) && u in reg.servers && RawIsNew(reg.tokens, raw)
    ensures var (after, result) := Generate(reg, u, raw, now);
            && (result.Issued? <==>
                  && reg.servers[u].status != Archived && reg.servers[u].agentId.None?
                  && forall i :: 0 <= i < |reg.tokens| && IsActiveFor(reg.tokens[i], u) ==>
                       IsPast(reg.tokens[i].expiresAt, now))
            && (result.Issued? ==>
                  && forall i :: 0 <= i < |after.tokens| && IsActiveFor(after.tokens[i], u) ==>
                       after.tokens[i] == NewToken(u, raw, now))
            && (!result.Issued? ==> after == reg)
  {
    OwnersAreActive(reg, u);
    var active := FirstActive(reg.tokens, u);
    if active.Some? {
      forall i | 0 <= i < |reg.tokens| && IsActiveFor(reg.tokens[i], u)
        ensures i == active.value
      {
        assert IsActiveFor(reg.tokens[active.value], u);
      }
    }
  }

  lemma RegenerateKeeps(reg: Registry, u: Uuid, raw: string, now: Time)
    requires TokensOk(reg) && Ownership(reg.servers, reg.agents) && u in reg.servers && RawIsNew(reg.tokens, raw)
    ensures var after := Regenerate(reg, u, raw, now).0;
            TokensOk(after) && Advances(reg.tokens, after.tokens) && Ownership(after.servers, after.agents)
  {
    var revoked := reg.(tokens := RevokedActive(reg.tokens, u, now));
    RevokingKeepsTokens(reg, u, now);
    GenerateKeeps(revoked, u, raw, now);
    AdvancesTransitive(reg.tokens, revoked.tokens, Generate(revoked, u, raw, now).0.tokens);
  }

  /** After its revocations, regeneration can no longer meet a conflict. */
  lemma RegenerateNeverConflicts(reg: Registry, u: Uuid, raw: string, now: Time)
    requires u in reg.servers
    ensures !Regenerate(reg, u, raw, now).1.Conflict?
  {
  }

  lemma ForceReinstallKeeps(reg: Registry, u: Uuid, raw: string, now: Time)
    requires TokensOk(reg) && Ownership(reg.servers, reg.agents) && u in reg.servers && RawIsNew(reg.tokens, raw)
    ensures var after := ForceReinstall(reg, u, raw, now).0;
            TokensOk(after) && Advances(reg.tokens, after.tokens) && Ownership(after.servers, after.agents)
  {
    var (after, result) := ForceReinstall(reg, u, raw, now);
    if result.Issued? {
      IssuingKeepsTokens(reg, u, raw, now);
      SameOwnersKeep(reg.servers, reg.agents, after.servers, after.agents);
    }
  }

  lemma CheckExpirationKeeps(reg: Registry, u: Uuid, now: Time)
    requires TokensOk(reg) && Ownership(reg.servers, reg.agents) && u in reg.servers
    ensures var after := CheckExpiration(reg, u, now);
            TokensOk(after) && Advances(reg.tokens, after.tokens) && Ownership(after.servers, after.agents)
  {
    var after := CheckExpiration(reg, u, now);
    SameOwnersKeep(reg.servers, reg.agents, after.servers, after.agents);
  }

  lemma CleanupKeeps(reg: Registry, now: Time)
    requires TokensOk(reg)
    ensures TokensOk(reg.(tokens := Cleaned(reg.tokens, now))) && Advances(reg.tokens, Cleaned(reg.tokens, now))
  {
  }

  /** A registration keeps ownership and tokens, and spends exactly the token it was given. */
  lemma RegisterKeeps(reg: Registry, raw: string, m: Metadata, now: Time)
    requires TokensOk(reg) && Ownership(reg.servers, reg.agents)
    ensures var (after, result) := Register(reg, raw, m, now);
            && TokensOk(after) && Advances(reg.tokens, after.tokens) && Ownership(after.servers, after.agents)
            && (result.Registered? ==>
                 && result.server in after.servers && after.servers[result.server].agentId == Some(result.agent)
                 && exists i :: 0 <= i < |reg.tokens| && reg.tokens[i].raw == raw
                      && reg.tokens[i].status == TokenActive && after.tokens[i].status == TokenUsed)
  {
    var (after, result) := Register(reg, raw, m, now);
    if result.Registered? {
      var found := FindToken(reg.tokens, raw).value;
      AttachKeepsOwnership(reg.servers, reg.agents, reg.tokens[found].server, m.installation.value);
      assert after.tokens[found].status == TokenUsed;
    }
  }

  /** A token that is not active registers nothing, now or after any further steps. */
  lemma SpentTokenIsRefused(reg: Registry, i: nat, m: Metadata, now: Time)
    requires TokensOk(reg) && Ownership(reg.servers, reg.agents)
    requires i < |reg.tokens| && reg.tokens[i].status != TokenActive
    ensures Register(reg, reg.tokens[i].raw, m, now) == (reg, Gone)
  {
    var found := FindToken(reg.tokens, reg.tokens[i].raw);
    assert found.value == i;
  }

  /**
   Registration looks at the status alone. With acceptable metadata it succeeds
   exactly when the token is active, however long ago it expired; bootstrap,
   one step earlier, does look at the clock.
   */
  lemma RegisterIgnoresExpiry(reg: Registry, i: nat, m: Metadata, now: Time)
    requires TokensOk(reg) && Ownership(reg.servers, reg.agents)
    requires i < |reg.tokens| && AcceptableMetadata(m)
    ensures Register(reg, reg.tokens[i].raw, m, now).1.Registered? <==> reg.tokens[i].status == TokenActive
    ensures IsValid(reg.tokens[i], now) ==> Register(reg, reg.tokens[i].raw, m, now).1.Registered?
    ensures IsPast(reg.tokens[i].expiresAt, now) ==> !IsValid(reg.tokens[i], now)
  {
    var found := FindToken(reg.tokens, reg.tokens[i].raw);
    assert found.value == i;
  }

  /** The displaced owner is revoked exactly when the server was all it owned. */
  lemma DisplacedOnlyWhenItOwnsNothingElse(
    servers: map<Uuid, Server>, agents: seq<Agent>, u: Uuid, installation: string)
    requires Ownership(servers, agents) && u in servers && servers[u].agentId.Some?
    ensures var old', (servers', agents', id) := servers[u].agentId.value, Attached(servers, agents, u, installation);
            && old' < |agents'|
            && (agents'[old'].status == Revoked <==> id != old' && !OwnsAnother(servers, old', u))
  {
    var owner := servers[u].agentId.value;
    AdoptedAgentAfterAttach(servers, agents, u, installation);
    if owner != Attached(servers, agents, u, installation).2 {
      OtherAgentsAfterAttach(servers, agents, u, installation, owner);
    }
  }

  /**
   After the check a server is only left waiting for an installation while a token
   that has not expired waits for it, and it is never woken up.
   */
  lemma WaitingMeansLiveToken(reg: Registry, u: Uuid, now: Time)
    requires TokensOk(reg) && u in reg.servers
    ensures var after := CheckExpiration(reg, u, now);
            after.servers[u].status == WaitingForInstallation <==>
              && reg.servers[u].status == WaitingForInstallation
              && exists i :: 0 <= i < |after.tokens| &&
                   IsActiveFor(after.tokens[i], u) && !IsPast(after.tokens[i].expiresAt, now)
  {
    var found := FirstActive(reg.tokens, u);
    if found.Some? && !IsPast(reg.tokens[found.value].expiresAt, now) {
      assert CheckExpiration(reg, u, now).tokens[found.value] == reg.tokens[found.value];
    }
  }

  /**
   The cleanup compares whole seconds: the active tokens it leaves behind
   have expired less than a second ago, if at all.
   */
  lemma CleanupLeavesTheLastSecond(tokens: seq<Token>, now: Time, i: nat)
    requires i < |tokens|
    ensures Cleaned(tokens, now)[i].status == TokenActive <==>
              tokens[i].status == TokenActive && now < InstantOf(tokens[i].expiresAt) + MICROS
    ensures Cleaned(tokens, now)[i].status != tokens[i].status ==>
              Cleaned(tokens, now)[i].status == TokenExpired && IsPast(tokens[i].expiresAt, now)
  {
    assert now == StampOf(now) * MICROS + now % MICROS;
  }

  // ---- the server a session names ----

  /** `Agent::monitoredServers` in the order given. */
  predicate IsMonitored(s: Server, a: nat) {
    s.agentId == Some(a) && !s.agentDeleted && s.status != Archived
  }

  function MonitoredServers(servers: map<Uuid, Server>, order: seq<Uuid>, a: nat): seq<Uuid> {
    if order == [] then []
    else
      (if order[0] in servers && IsMonitored(servers[order[0]], a) then [order[0]] else [])
      + MonitoredServers(servers, order[1..], a)
  }

  /** `issueSession`: the legacy pointer while it is monitored, else the first monitored server. */
  function Primary(servers: map<Uuid, Server>, agents: seq<Agent>, order: seq<Uuid>, a: nat): Option<Uuid>
    requires a < |agents|
  {
    var monitored := MonitoredServers(servers, order, a);
    if agents[a].serverId.Some? && agents[a].serverId.value in monitored then agents[a].serverId
    else if monitored != [] then Some(monitored[0])
    else None
  }

  lemma {:induction false} MonitoredAre(servers: map<Uuid, Server>, order: seq<Uuid>, a: nat)
    ensures forall u ::
              u in MonitoredServers(servers, order, a) <==> u in order && u in servers && IsMonitored(servers[u], a)
  {
    if order != [] {
      MonitoredAre(servers, order[1..], a);
      assert order == [order[0]] + order[1..];
    }
  }

  /** A session never names a decommissioned or foreign server, and names one whenever the agent monitors any. */
  lemma PrimaryIsMonitored(servers: map<Uuid, Server>, agents: seq<Agent>, order: seq<Uuid>, a: nat)
    requires Ownership(servers, agents) && a < |agents| && (forall u :: u in servers <==> u in order)
    ensures var primary := Primary(servers, agents, order, a);
            && (primary.Some? ==> primary.value in servers && IsMonitored(servers[primary.value], a))
            && (primary.None? <==> forall u :: u in servers ==> !IsMonitored(servers[u], a))
            && (primary.Some? ==> agents[a].status == Active)
  {
    MonitoredAre(servers, order, a);
    var monitored, primary := MonitoredServers(servers, order, a), Primary(servers, agents, order, a);
    assert monitored != [] ==> monitored[0] in monitored;
    if primary.Some? {
      assert primary.value in monitored;
      assert Owns(servers, a);
    }
  }

  /** Agent `a` answers for the server: it owns it, and nobody has deleted or archived it. */
  predicate AnswersFor(servers: map<Uuid, Server>, a: nat, u: Uuid) {
    u in servers && servers[u].agentId == Some(a) && !servers[u].agentDeleted && servers[u].status != Archived
  }

  /** The first of the servers, in the order given, that the agent answers for. */
  ghost predicate IsFirst(servers: map<Uuid, Server>, order: seq<Uuid>, a: nat, i: nat) {
    i < |order| && AnswersFor(servers, a, order[i]) && forall j :: 0 <= j < i ==> !AnswersFor(servers, a, order[j])
  }

  lemma {:induction false} FirstMonitored(servers: map<Uuid, Server>, order: seq<Uuid>, a: nat) returns (i: nat)
    ensures var monitored := MonitoredServers(servers, order, a);
            if monitored == [] then forall u :: u in order ==> !AnswersFor(servers, a, u)
            else IsFirst(servers, order, a, i) && monitored[0] == order[i]
  {
    i := 0;
    if order != [] && !AnswersFor(servers, a, order[0]) {
      i := FirstMonitored(servers, order[1..], a);
      assert order == [order[0]] + order[1..];
      i := i + 1;
    }
  }

  /**
   A session names the server the agent's row points at while the agent
   answers for it, else the first it answers for.
   */
  lemma PrimaryExactly(servers: map<Uuid, Server>, agents: seq<Agent>, order: seq<Uuid>, a: nat) returns (i: nat)
    requires a < |agents| && (forall u :: u in servers <==> u in order)
    ensures var primary, pointed := Primary(servers, agents, order, a), agents[a].serverId;
            if pointed.Some? && AnswersFor(servers, a, pointed.value) then primary == pointed
            else if exists u :: u in order && AnswersFor(servers, a, u) then
              IsFirst(servers, order, a, i) && primary == Some(order[i])
            else primary == None
  {
    MonitoredAre(servers, order, a);
    i := FirstMonitored(servers, order, a);
  }
}
