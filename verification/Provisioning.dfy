/** Provision tokens and agent registration (`ProvisioningService`, `Server::checkTokenExpiration`, token cleanup). */
module Provisioning {
  import opened Common
  import opened Clock
  import opened Schema
  import opened Database

  const TOKEN_LIFETIME: nat := 30 * 60 * MICROS

  datatype GenerateResult =
    | ServerArchived
    | AgentInstalled
    | Conflict(expiresAt: Stamp)
    | Issued(token: string, expiresAt: Stamp)

  /** What the installer sends; an absent field is `None`. */
  datatype Metadata = Metadata(installation: Option<string>, publicKey: Option<string>, publicKeyHash: Option<string>)

  datatype RegisterResult = Gone | Unprocessable | Registered(agent: nat, server: Uuid)

  // ---- queries ----

  /** The `agent` relation: the owner, as long as it is active. */
  function ActiveAgent(reg: Registry, server: Server): Option<nat> {
    if server.agentId.Some? && server.agentId.value < |reg.agents| && reg.agents[server.agentId.value].status.Active?
    then server.agentId else None
  }

  predicate IsActiveFor(t: Token, u: Uuid) {
    t.server == u && t.status == TokenActive
  }

  /** The `activeProvisionToken` relation. */
  function FirstActive(tokens: seq<Token>, u: Uuid): (found: Option<nat>)
    ensures found.Some? ==> found.value < |tokens| && IsActiveFor(tokens[found.value], u)
    ensures found.None? ==> forall i :: 0 <= i < |tokens| ==> !IsActiveFor(tokens[i], u)
  {
    if tokens == [] then None
    else if IsActiveFor(tokens[0], u) then Some(0)
    else
      match FirstActive(tokens[1..], u)
      case None => None
      case Some(i) => Some(i + 1)
  }

  function FindToken(tokens: seq<Token>, raw: string): (found: Option<nat>)
    ensures found.Some? ==> found.value < |tokens| && tokens[found.value].raw == raw
    ensures found.None? ==> forall i :: 0 <= i < |tokens| ==> tokens[i].raw != raw
  {
    if tokens == [] then None
    else if tokens[0].raw == raw then Some(0)
    else
      match FindToken(tokens[1..], raw)
      case None => None
      case Some(i) => Some(i + 1)
  }

  function FindAgent(agents: seq<Agent>, installation: string): (found: Option<nat>)
    ensures found.Some? ==> found.value < |agents| && agents[found.value].installation == installation
    ensures found.None? ==> forall a :: 0 <= a < |agents| ==> agents[a].installation != installation
  {
    if agents == [] then None
    else if agents[0].installation == installation then Some(0)
    else
      match FindAgent(agents[1..], installation)
      case None => None
      case Some(i) => Some(i + 1)
  }

  /** `ProvisionToken::isValid`, the bootstrap check. */
  predicate IsValid(t: Token, now: Time) {
    t.status == TokenActive && !IsPast(t.expiresAt, now) && t.usedAt.None? && t.revokedAt.None?
  }

  // ---- what each operation does to the registry ----

  function Revoke(t: Token, now: Time): Token {
    t.(status := TokenRevoked, revokedAt := Some(StampOf(now)))
  }

  function RevokedActive(tokens: seq<Token>, u: Uuid, now: Time): seq<Token> {
    seq(|tokens|, i requires 0 <= i < |tokens| =>
      if IsActiveFor(tokens[i], u) then Revoke(tokens[i], now) else tokens[i])
  }

  function NewToken(u: Uuid, raw: string, now: Time): Token {
    Token(u, raw, TokenActive, StampOf(now + TOKEN_LIFETIME), None, None)
  }

  function Generate(reg: Registry, u: Uuid, raw: string, now: Time): (Registry, GenerateResult)
    requires u in reg.servers
  {
    var server, active := reg.servers[u], FirstActive(reg.tokens, u);
    if server.status == Archived then (reg, ServerArchived)
    else if ActiveAgent(reg, server).Some? then (reg, AgentInstalled)
    else if active.Some? && !IsPast(reg.tokens[active.value].expiresAt, now) then
      (reg, Conflict(reg.tokens[active.value].expiresAt))
    else
      (reg.(tokens := RevokedActive(reg.tokens, u, now) + [NewToken(u, raw, now)],
            servers := reg.servers[u := server.(status := WaitingForInstallation, agentDeleted := false)]),
       Issued(raw, NewToken(u, raw, now).expiresAt))
  }

  function Regenerate(reg: Registry, u: Uuid, raw: string, now: Time): (Registry, GenerateResult)
    requires u in reg.servers
  {
    Generate(reg.(tokens := RevokedActive(reg.tokens, u, now)), u, raw, now)
  }

  function ForceReinstall(reg: Registry, u: Uuid, raw: string, now: Time): (Registry, GenerateResult)
    requires u in reg.servers
  {
    if reg.servers[u].status == Archived then (reg, ServerArchived)
    else
      (reg.(tokens := RevokedActive(reg.tokens, u, now) + [NewToken(u, raw, now)],
            servers := reg.servers[u := reg.servers[u].(agentDeleted := false)]),
       Issued(raw, NewToken(u, raw, now).expiresAt))
  }

  /** A missing string, or one PHP takes for false. */
  predicate Falsy(s: Option<string>) {
    s.None? || s.value == "" || s.value == "0"
  }

  predicate AcceptableMetadata(m: Metadata) {
    && !Falsy(m.installation) && |m.installation.value| <= 36
    && !Falsy(m.publicKey) && !Falsy(m.publicKeyHash) && |m.publicKeyHash.value| == 64
  }

  /** Some server other than `u` is owned by agent `a`. */
  predicate OwnsAnother(servers: map<Uuid, Server>, a: nat, u: Uuid) {
    exists v :: v in servers && v != u && servers[v].agentId == Some(a)
  }

  /**
   The agent that loses server `u`: its pointer is dropped if it named
   `u`, and it is revoked if nothing is left to it.
   */
  function Displaced(old': Agent, u: Uuid, stillOwns: bool): Agent {
    var kept := old'.(serverId := if old'.serverId == Some(u) then None else old'.serverId);
    if stillOwns then kept else kept.(status := Revoked, lastSeen := None)
  }

  /** The agents after server `u` is taken from its owner, unless that is the agent it goes to. */
  function AfterDisplacement(servers: map<Uuid, Server>, agents: seq<Agent>, u: Uuid, to: Option<nat>)
    : (after: seq<Agent>)
    requires u in servers && (servers[u].agentId.Some? ==> servers[u].agentId.value < |agents|)
    ensures |after| == |agents|
  {
    var owner := servers[u].agentId;
    if owner.Some? && owner != to then
      agents[owner.value := Displaced(agents[owner.value], u, OwnsAnother(servers, owner.value, u))]
    else agents
  }

  /** The agent row an installation gets, or gets back; the legacy pointer is adopted only if unset. */
  function AfterAdoption(agents: seq<Agent>, u: Uuid, to: Option<nat>, installation: string): (seq<Agent>, nat)
    requires to.Some? ==> to.value < |agents|
  {
    if to.Some? then
      var a := agents[to.value];
      (agents[to.value := a.(status := Active, lastSeen := None,
                             serverId := if a.serverId.None? then Some(u) else a.serverId)], to.value)
    else (agents + [Agent(installation, Active, Some(u), None)], |agents|)
  }

  /** Ownership after an installation registers for server `u`, and the agent that then owns it. */
  function Attached(servers: map<Uuid, Server>, agents: seq<Agent>, u: Uuid, installation: string)
    : (map<Uuid, Server>, seq<Agent>, nat)
    requires u in servers && (servers[u].agentId.Some? ==> servers[u].agentId.value < |agents|)
  {
    var to := FindAgent(agents, installation);
    var (after, id) := AfterAdoption(AfterDisplacement(servers, agents, u, to), u, to, installation);
    (servers[u := servers[u].(status := WaitingForFirstHeartbeat, agentId := Some(id))], after, id)
  }

  function Register(reg: Registry, raw: string, m: Metadata, now: Time): (Registry, RegisterResult)
    requires forall i :: 0 <= i < |reg.tokens| ==> reg.tokens[i].server in reg.servers
    requires forall u :: u in reg.servers && reg.servers[u].agentId.Some? ==>
               reg.servers[u].agentId.value < |reg.agents|
  {
    var found := FindToken(reg.tokens, raw);
    if found.None? || reg.tokens[found.value].status != TokenActive then (reg, Gone)
    else if !AcceptableMetadata(m) then (reg, Unprocessable)
    else
      var t := reg.tokens[found.value];
      var (servers, agents, id) := Attached(reg.servers, reg.agents, t.server, m.installation.value);
      (Registry(servers, agents, reg.tokens[found.value := t.(status := TokenUsed, usedAt := Some(StampOf(now)))]),
       Registered(id, t.server))
  }

  /** A server waiting for an installation falls back when its token is gone or expired. */
  function CheckExpiration(reg: Registry, u: Uuid, now: Time): Registry
    requires u in reg.servers
  {
    var active := FirstActive(reg.tokens, u);
    if reg.servers[u].status != WaitingForInstallation
       || (active.Some? && !IsPast(reg.tokens[active.value].expiresAt, now)) then reg
    else
      reg.(servers := reg.servers[u := reg.servers[u].(status := PendingInstallation)],
           tokens := if active.Some?
                     then reg.tokens[active.value := reg.tokens[active.value].(status := TokenExpired)]
                     else reg.tokens)
  }

  /** The scheduled cleanup; a query compares with `now()` in whole seconds. */
  function Cleaned(tokens: seq<Token>, now: Time): seq<Token> {
    seq(|tokens|, i requires 0 <= i < |tokens| =>
      if tokens[i].status == TokenActive && tokens[i].expiresAt < StampOf(now)
      then tokens[i].(status := TokenExpired) else tokens[i])
  }

  // ---- the service ----

  method RevokeActiveTokens(db: Tables, u: Uuid, now: Time)
    modifies db
    ensures db.Snapshot() == old(db.Snapshot()).(reg := old(db.Reg()).(tokens := RevokedActive(old(db.tokens), u, now)))
  {
    var i := 0;
    while i < |db.tokens|
      invariant 0 <= i <= |db.tokens| == |old(db.tokens)|
      invariant db.Snapshot() == old(db.Snapshot()).(reg := old(db.Reg()).(tokens := db.tokens))
      invariant forall k :: 0 <= k < i ==> db.tokens[k] == RevokedActive(old(db.tokens), u, now)[k]
      invariant forall k :: i <= k < |db.tokens| ==> db.tokens[k] == old(db.tokens)[k]
    {
      if IsActiveFor(db.tokens[i], u) {
        db.tokens := db.tokens[i := Revoke(db.tokens[i], now)];
      }
      i := i + 1;
    }
  }

  method GenerateToken(db: Tables, u: Uuid, raw: string, now: Time) returns (result: GenerateResult)
    requires u in db.servers
    modifies db
    ensures var (reg, r) := Generate(old(db.Reg()), u, raw, now);
            db.Snapshot() == old(db.Snapshot()).(reg := reg) && result == r
  {
    var server := db.servers[u];
    if server.status == Archived {
      return ServerArchived;
    }
    if ActiveAgent(db.Reg(), server).Some? {
      return AgentInstalled;
    }
    var active := FirstActive(db.tokens, u);
    if active.Some? && !IsPast(db.tokens[active.value].expiresAt, now) {
      return Conflict(db.tokens[active.value].expiresAt);
    }
    var expiresAt := StampOf(now + TOKEN_LIFETIME);
    RevokeActiveTokens(db, u, now);
    db.tokens := db.tokens + [Token(u, raw, TokenActive, expiresAt, None, None)];
    db.servers := db.servers[u := server.(status := WaitingForInstallation, agentDeleted := false)];
    result := Issued(raw, expiresAt);
  }

  method RegenerateToken(db: Tables, u: Uuid, raw: string, now: Time) returns (result: GenerateResult)
    requires u in db.servers
    modifies db
    ensures var (reg, r) := Regenerate(old(db.Reg()), u, raw, now);
            db.Snapshot() == old(db.Snapshot()).(reg := reg) && result == r
  {
    RevokeActiveTokens(db, u, now);
    result := GenerateToken(db, u, raw, now);
  }

  method ForceReinstallToken(db: Tables, u: Uuid, raw: string, now: Time) returns (result: GenerateResult)
    requires u in db.servers
    modifies db
    ensures var (reg, r) := ForceReinstall(old(db.Reg()), u, raw, now);
            db.Snapshot() == old(db.Snapshot()).(reg := reg) && result == r
  {
    if db.servers[u].status == Archived {
      return ServerArchived;
    }
    RevokeActiveTokens(db, u, now);
    var expiresAt := StampOf(now + TOKEN_LIFETIME);
    db.tokens := db.tokens + [Token(u, raw, TokenActive, expiresAt, None, None)];
    db.servers := db.servers[u := db.servers[u].(agentDeleted := false)];
    result := Issued(raw, expiresAt);
  }

  /** The previous owner loses the server, and its activity when it owns nothing else. */
  method DisplaceOwner(db: Tables, u: Uuid, to: Option<nat>)
    requires u in db.servers && (db.servers[u].agentId.Some? ==> db.servers[u].agentId.value < |db.agents|)
    modifies db
    ensures db.Snapshot()
         == old(db.Snapshot()).(reg := old(db.Reg()).(
              agents := AfterDisplacement(old(db.servers), old(db.agents), u, to)))
  {
    var owner := db.servers[u].agentId;
    if owner.Some? && (to.None? || owner.value != to.value) {
      var oldOwner := db.agents[owner.value];
      if oldOwner.serverId == Some(u) {
        oldOwner := oldOwner.(serverId := None);
      }
      var stillOwns := OwnsAnother(db.servers, owner.value, u);
      if !stillOwns {
        oldOwner := oldOwner.(status := Revoked, lastSeen := None);
      }
      db.agents := db.agents[owner.value := oldOwner];
    }
  }

  method AdoptAgent(db: Tables, u: Uuid, to: Option<nat>, installation: string) returns (id: nat)
    requires to.Some? ==> to.value < |db.agents|
    modifies db
    ensures var (agents, owner) := AfterAdoption(old(db.agents), u, to, installation);
            db.Snapshot() == old(db.Snapshot()).(reg := old(db.Reg()).(agents := agents)) && id == owner
  {
    if to.Some? {
      id := to.value;
      db.agents := db.agents[id := db.agents[id].(status := Active, lastSeen := None)];
      if db.agents[id].serverId.None? {
        db.agents := db.agents[id := db.agents[id].(serverId := Some(u))];
      }
    } else {
      id := |db.agents|;
      db.agents := db.agents + [Agent(installation, Active, Some(u), None)];
    }
  }

  /** The step of a registration that settles who owns the server. */
  method AttachServer(db: Tables, u: Uuid, installation: string) returns (id: nat)
    requires u in db.servers && (db.servers[u].agentId.Some? ==> db.servers[u].agentId.value < |db.agents|)
    modifies db
    ensures var (servers, agents, owner) := Attached(old(db.servers), old(db.agents), u, installation);
            && db.Snapshot() == old(db.Snapshot()).(reg := old(db.Reg()).(servers := servers, agents := agents))
            && id == owner
  {
    var to := FindAgent(db.agents, installation);
    DisplaceOwner(db, u, to);
    id := AdoptAgent(db, u, to, installation);
    db.servers := db.servers[u := db.servers[u].(status := WaitingForFirstHeartbeat)];
    if db.servers[u].agentId != Some(id) {
      db.servers := db.servers[u := db.servers[u].(agentId := Some(id))];
    }
  }

  method RegisterAgent(db: Tables, raw: string, m: Metadata, now: Time) returns (result: RegisterResult)
    requires ForeignKeys(db.Reg())
    modifies db
    ensures var (reg, r) := Register(old(db.Reg()), raw, m, now);
            db.Snapshot() == old(db.Snapshot()).(reg := reg) && result == r
  {
    var found := FindToken(db.tokens, raw);
    if found.None? || db.tokens[found.value].status != TokenActive {
      return Gone;
    }
    if Falsy(m.installation) || |m.installation.value| > 36 {
      return Unprocessable;
    }
    if Falsy(m.publicKey) || Falsy(m.publicKeyHash) || |m.publicKeyHash.value| != 64 {
      return Unprocessable;
    }
    var u := db.tokens[found.value].server;
    db.tokens := db.tokens[found.value := db.tokens[found.value].(status := TokenUsed, usedAt := Some(StampOf(now)))];
    var id := AttachServer(db, u, m.installation.value);
    result := Registered(id, u);
  }

  /** The check at the start of `bootstrap`, which writes nothing modelled here. */
  method Bootstrap(db: Tables, raw: string, now: Time) returns (accepted: bool)
    ensures accepted
       <==> exists i :: 0 <= i < |db.tokens| && FindToken(db.tokens, raw) == Some(i) && IsValid(db.tokens[i], now)
  {
    var found := FindToken(db.tokens, raw);
    accepted := found.Some? && IsValid(db.tokens[found.value], now);
  }

  method CheckTokenExpiration(db: Tables, u: Uuid, now: Time)
    requires u in db.servers
    modifies db
    ensures db.Snapshot() == old(db.Snapshot()).(reg := CheckExpiration(old(db.Reg()), u, now))
  {
    if db.servers[u].status == WaitingForInstallation {
      var active := FirstActive(db.tokens, u);
      if active.None? || IsPast(db.tokens[active.value].expiresAt, now) {
        db.servers := db.servers[u := db.servers[u].(status := PendingInstallation)];
        if active.Some? {
          db.tokens := db.tokens[active.value := db.tokens[active.value].(status := TokenExpired)];
        }
      }
    }
  }

  method CleanupTokens(db: Tables, now: Time)
    modifies db
    ensures db.Snapshot() == old(db.Snapshot()).(reg := old(db.Reg()).(tokens := Cleaned(old(db.tokens), now)))
  {
    var i := 0;
    while i < |db.tokens|
      invariant 0 <= i <= |db.tokens| == |old(db.tokens)|
      invariant db.Snapshot() == old(db.Snapshot()).(reg := old(db.Reg()).(tokens := db.tokens))
      invariant forall k :: 0 <= k < i ==> db.tokens[k] == Cleaned(old(db.tokens), now)[k]
      invariant forall k :: i <= k < |db.tokens| ==> db.tokens[k] == old(db.tokens)[k]
    {
      if db.tokens[i].status == TokenActive && db.tokens[i].expiresAt < StampOf(now) {
        db.tokens := db.tokens[i := db.tokens[i].(status := TokenExpired)];
      }
      i := i + 1;
    }
  }
}
