/** The life of a provision token: what issues it, what ends it, and how long it can be presented. */
module TokenLaws {
  import opened Common
  import opened Clock
  import opened Schema
  import opened Database
  import opened Provisioning
  import opened ProvisioningLaws

  predicate IsActiveOf(t: Token, u: Uuid) {
    t.server == u && t.status == TokenActive
  }

  /** What is left of a token when the active ones of a server are revoked. */
  function Withdrawn(t: Token, u: Uuid, now: Time): Token {
    if IsActiveOf(t, u) then t.(status := TokenRevoked, revokedAt := Some(StampOf(now))) else t
  }

  ghost predicate OldOnesWithdrawn(before: seq<Token>, after: seq<Token>, u: Uuid, now: Time) {
    |before| <= |after| && forall i :: 0 <= i < |before| ==> after[i] == Withdrawn(before[i], u, now)
  }

  /** One token more, the only active one of its server, good for thirty minutes. */
  ghost predicate OneMoreToken(before: seq<Token>, after: seq<Token>, u: Uuid, raw: string, now: Time) {
    && |after| == |before| + 1 && OldOnesWithdrawn(before, after, u, now)
    && after[|before|].raw == raw
    && after[|before|].expiresAt == StampOf(now) + 1800
    && after[|before|].usedAt == None && after[|before|].revokedAt == None
    && forall i :: 0 <= i < |after| ==> (IsActiveOf(after[i], u) <==> i == |before|)
  }

  lemma ThirtyMinutes(now: Time)
    ensures StampOf(now + TOKEN_LIFETIME) == StampOf(now) + 1800
  {
    assert now + TOKEN_LIFETIME == now + 1800 * MICROS;
  }

  lemma RevokedAreWithdrawn(tokens: seq<Token>, u: Uuid, now: Time)
    ensures OldOnesWithdrawn(tokens, RevokedActive(tokens, u, now), u, now)
  {
  }

  lemma IssuedIsOneMore(tokens: seq<Token>, u: Uuid, raw: string, now: Time)
    ensures OneMoreToken(tokens, RevokedActive(tokens, u, now) + [NewToken(u, raw, now)], u, raw, now)
  {
    ThirtyMinutes(now);
    RevokedAreWithdrawn(tokens, u, now);
  }

  // ---- the three ways to a token ----

  /**
   A forced reinstall issues a token for every server that is not archived, whoever owns it and
   whatever tokens it has: the old ones are withdrawn, and owner and status stay as they were.
   */
  lemma ForceReinstallIssuesExactlyWhen(reg: Registry, u: Uuid, raw: string, now: Time)
    requires u in reg.servers
    ensures var (after, result) := ForceReinstall(reg, u, raw, now);
            if reg.servers[u].status == Archived then result == ServerArchived && after == reg
            else
              && result == Issued(raw, StampOf(now) + 1800)
              && OneMoreToken(reg.tokens, after.tokens, u, raw, now)
              && after.agents == reg.agents
              && after.servers == reg.servers[u := reg.servers[u].(agentDeleted := false)]
  {
    ThirtyMinutes(now);
    IssuedIsOneMore(reg.tokens, u, raw, now);
  }

  /**
   Regeneration withdraws the server's tokens in any case, and issues a new one exactly for a
   server that is not archived and has no owner; that server is back in service and waits.
   */
  lemma RegenerateIssuesExactlyWhen(reg: Registry, u: Uuid, raw: string, now: Time)
    requires Ownership(reg.servers, reg.agents) && u in reg.servers
    ensures var (after, result) := Regenerate(reg, u, raw, now);
            && after.agents == reg.agents
            && if reg.servers[u].status == Archived || reg.servers[u].agentId.Some? then
                 && result == (if reg.servers[u].status == Archived then ServerArchived else AgentInstalled)
                 && after.servers == reg.servers
                 && |after.tokens| == |reg.tokens| && OldOnesWithdrawn(reg.tokens, after.tokens, u, now)
               else
                 && result == Issued(raw, StampOf(now) + 1800)
                 && OneMoreToken(reg.tokens, after.tokens, u, raw, now)
                 && after.servers
                    == reg.servers[u := reg.servers[u].(status := WaitingForInstallation, agentDeleted := false)]
  {
    OwnersAreActive(reg, u);
    ThirtyMinutes(now);
    RevokedAreWithdrawn(reg.tokens, u, now);
    RegenerateNeverConflicts(reg, u, raw, now);
    var revoked := RevokedActive(reg.tokens, u, now);
    assert RevokedActive(revoked, u, now) == revoked;
    IssuedIsOneMore(reg.tokens, u, raw, now);
  }

  /** A live token of the server: it can still be presented to the bootstrap. */
  predicate IsLive(t: Token, u: Uuid, now: Time) {
    IsActiveOf(t, u) && now <= InstantOf(t.expiresAt)
  }

  /**
   Every answer of a generation, with its reason: archived, owned, a live token in the way, or a
   token; whatever is refused changes nothing.
   */
  lemma GenerateAnswers(reg: Registry, u: Uuid, raw: string, now: Time)
    requires TokensOk(reg) && Ownership(reg.servers, reg.agents) && u in reg.servers
    ensures var (after, result) := Generate(reg, u, raw, now);
            && (!result.Issued? ==> after == reg)
            && if reg.servers[u].status == Archived then result == ServerArchived
               else if reg.servers[u].agentId.Some? then result == AgentInstalled
               else if exists i :: 0 <= i < |reg.tokens| && IsLive(reg.tokens[i], u, now) then
                 && result.Conflict?
                 && exists i :: 0 <= i < |reg.tokens| && IsLive(reg.tokens[i], u, now)
                      && reg.tokens[i].expiresAt == result.expiresAt
               else
                 && result == Issued(raw, StampOf(now) + 1800)
                 && OneMoreToken(reg.tokens, after.tokens, u, raw, now)
                 && after.agents == reg.agents
                 && after.servers
                    == reg.servers[u := reg.servers[u].(status := WaitingForInstallation, agentDeleted := false)]
  {
    OwnersAreActive(reg, u);
    ThirtyMinutes(now);
    IssuedIsOneMore(reg.tokens, u, raw, now);
    var active := FirstActive(reg.tokens, u);
    if active.Some? {
      if i :| 0 <= i < |reg.tokens| && IsLive(reg.tokens[i], u, now) {
        assert i == active.value;
      }
      assert IsLive(reg.tokens[active.value], u, now) <==> !IsPast(reg.tokens[active.value].expiresAt, now);
    } else {
      assert forall i :: 0 <= i < |reg.tokens| ==> !IsActiveFor(reg.tokens[i], u);
    }
  }

  // ---- the end of a token ----

  /**
   The check of a server that waits for its installation: while a live token waits nothing
   happens; otherwise the server falls back to pending and its token, if it still had one, is
   expired from then on.
   */
  lemma WaitingFallsBackExactlyWhen(reg: Registry, u: Uuid, now: Time)
    requires TokensOk(reg) && u in reg.servers
    ensures var after := CheckExpiration(reg, u, now);
            if reg.servers[u].status != WaitingForInstallation
               || exists i :: 0 <= i < |reg.tokens| && IsLive(reg.tokens[i], u, now) then after == reg
            else
              && after.agents == reg.agents && |after.tokens| == |reg.tokens|
              && after.servers == reg.servers[u := reg.servers[u].(status := PendingInstallation)]
              && forall i :: 0 <= i < |reg.tokens| ==>
                   after.tokens[i]
                   == if IsActiveOf(reg.tokens[i], u) then reg.tokens[i].(status := TokenExpired) else reg.tokens[i]
  {
    var active := FirstActive(reg.tokens, u);
    if active.Some? {
      if i :| 0 <= i < |reg.tokens| && IsLive(reg.tokens[i], u, now) {
        assert i == active.value;
      }
      assert IsActiveFor(reg.tokens[active.value], u);
      assert IsLive(reg.tokens[active.value], u, now) <==> !IsPast(reg.tokens[active.value].expiresAt, now);
      forall i | 0 <= i < |reg.tokens| && IsActiveOf(reg.tokens[i], u)
        ensures i == active.value
      {
      }
    } else {
      assert forall i :: 0 <= i < |reg.tokens| ==> !IsActiveFor(reg.tokens[i], u);
    }
  }

  /** The cleanup touches nothing of a token but its status, and that only of active ones a whole second overdue. */
  lemma CleanupOnlyExpires(tokens: seq<Token>, now: Time, i: nat)
    requires i < |tokens|
    ensures |Cleaned(tokens, now)| == |tokens|
    ensures Cleaned(tokens, now)[i]
         == if tokens[i].status == TokenActive && InstantOf(tokens[i].expiresAt) + 1_000_000 <= now
            then tokens[i].(status := TokenExpired) else tokens[i]
  {
    CleanupLeavesTheLastSecond(tokens, now, i);
  }

  // ---- registration ----

  predicate IsBlank(s: string) {
    s == "" || s == "0"
  }

  /** An installation id of at most 36 characters, a public key, and a hash of 64. */
  predicate CompleteMetadata(m: Metadata) {
    && m.installation.Some? && !IsBlank(m.installation.value) && |m.installation.value| <= 36
    && m.publicKey.Some? && !IsBlank(m.publicKey.value)
    && m.publicKeyHash.Some? && |m.publicKeyHash.value| == 64
  }

  /** The registered server's row: waiting for its new owner's first heartbeat, else as it was. */
  predicate RegisteredRow(before: Server, after: Server, owner: nat) {
    after == before.(status := WaitingForFirstHeartbeat, agentId := Some(owner))
  }

  /** The owner's row: active, not yet seen, and pointing where it pointed, or at this server if nowhere. */
  ghost predicate OwnerRow(agents: seq<Agent>, after: seq<Agent>, owner: nat, u: Uuid, installation: string) {
    && owner < |after|
    && after[owner].installation == installation && after[owner].status == Active && after[owner].lastSeen == None
    && after[owner].serverId
       == (if owner < |agents| && agents[owner].serverId.Some? then agents[owner].serverId else Some(u))
    && (if owner < |agents| then agents[owner].installation == installation
        else owner == |agents| && forall a :: 0 <= a < |agents| ==> agents[a].installation != installation)
  }

  /** Without an active token of that text a registration is answered 410 and changes nothing. */
  lemma RegisterNeedsActiveToken(reg: Registry, raw: string, m: Metadata, now: Time)
    requires TokensOk(reg) && Ownership(reg.servers, reg.agents)
    requires forall i :: 0 <= i < |reg.tokens| && reg.tokens[i].raw == raw ==> reg.tokens[i].status != TokenActive
    ensures Register(reg, raw, m, now) == (reg, Gone)
  {
  }

  /** With one it is answered 422 without effect, or spends the token, moves the server and activates its owner. */
  lemma RegisterAnswers(reg: Registry, i: nat, m: Metadata, now: Time)
    requires TokensOk(reg) && Ownership(reg.servers, reg.agents)
    requires i < |reg.tokens| && reg.tokens[i].status == TokenActive
    ensures var t, (after, result) := reg.tokens[i], Register(reg, reg.tokens[i].raw, m, now);
            if !CompleteMetadata(m) then result == Unprocessable && after == reg
            else
              && result.Registered? && result.server == t.server
              && after.tokens == reg.tokens[i := t.(status := TokenUsed, usedAt := Some(StampOf(now)))]
              && t.server in after.servers && t.server in reg.servers
              && RegisteredRow(reg.servers[t.server], after.servers[t.server], result.agent)
              && after.servers == reg.servers[t.server := after.servers[t.server]]
              && OwnerRow(reg.agents, after.agents, result.agent, t.server, m.installation.value)
  {
    var found := FindToken(reg.tokens, reg.tokens[i].raw);
    assert found.value == i;
    if CompleteMetadata(m) {
      AttachedOwnerRow(reg.servers, reg.agents, reg.tokens[i].server, m.installation.value);
    }
  }

  lemma AttachedOwnerRow(servers: map<Uuid, Server>, agents: seq<Agent>, u: Uuid, installation: string)
    requires Ownership(servers, agents) && u in servers
    ensures var (after, rows, id) := Attached(servers, agents, u, installation);
            && OwnerRow(agents, rows, id, u, installation)
            && u in after && RegisteredRow(servers[u], after[u], id) && after == servers[u := after[u]]
  {
    AdoptedAgentAfterAttach(servers, agents, u, installation);
  }

  /**
   The owner that loses the server keeps its row but for the pointer,
   unless it is left with nothing: then it is revoked.
   */
  lemma DisplacedOwnerRow(servers: map<Uuid, Server>, agents: seq<Agent>, u: Uuid, installation: string, a: nat)
    requires Ownership(servers, agents) && u in servers && a < |agents|
    requires a != Attached(servers, agents, u, installation).2
    ensures var after := Attached(servers, agents, u, installation).1;
            && a < |after|
            && after[a]
               == if servers[u].agentId != Some(a) then agents[a]
                  else agents[a].(
                    serverId := if agents[a].serverId == Some(u) then None else agents[a].serverId,
                    status := if OwnsAnother(servers, a, u) then Active else Revoked,
                    lastSeen := if OwnsAnother(servers, a, u) then agents[a].lastSeen else None)
  {
    OwnsAfterMove(servers, u, servers[u], a);
  }

  // ---- the dates of a token ----

  /** A token's dates tell its status: spent tokens and only they have been used, revoked ones and only they revoked. */
  predicate DatesTell(t: Token) {
    (t.usedAt.Some? <==> t.status == TokenUsed) && (t.revokedAt.Some? <==> t.status == TokenRevoked)
  }

  /** For such a token the bootstrap check is a matter of status and clock alone. */
  lemma ValidWhenActiveInTime(t: Token, now: Time)
    requires DatesTell(t)
    ensures IsValid(t, now) <==> t.status == TokenActive && now <= InstantOf(t.expiresAt)
  {
  }

  ghost predicate AllDatesTell(tokens: seq<Token>) {
    forall i :: 0 <= i < |tokens| ==> DatesTell(tokens[i])
  }

  /** A token keeps its text, server and expiry; a new one is the one that was issued, good for thirty minutes. */
  ghost predicate Carried(
    before: seq<Token>, after: seq<Token>, i: nat, issued: Option<string>, target: Option<Uuid>, now: Time)
    requires i < |after|
  {
    if i < |before| then
      after[i].raw == before[i].raw && after[i].server == before[i].server && after[i].expiresAt == before[i].expiresAt
    else
      && issued == Some(after[i].raw) && target == Some(after[i].server)
      && after[i].expiresAt == StampOf(now) + 1800
  }

  ghost predicate Carries(
    before: seq<Token>, after: seq<Token>, issued: Option<string>, target: Option<Uuid>, now: Time)
  {
    && (AllDatesTell(before) ==> AllDatesTell(after))
    && forall i :: 0 <= i < |after| ==> Carried(before, after, i, issued, target, now)
  }

  lemma OneMoreCarries(before: seq<Token>, after: seq<Token>, u: Uuid, raw: string, now: Time)
    requires OneMoreToken(before, after, u, raw, now)
    ensures Carries(before, after, Some(raw), Some(u), now)
  {
    forall i | 0 <= i < |after|
      ensures Carried(before, after, i, Some(raw), Some(u), now)
      ensures AllDatesTell(before) ==> DatesTell(after[i])
    {
      assert IsActiveOf(after[i], u) <==> i == |before|;
      if i < |before| {
        assert after[i] == Withdrawn(before[i], u, now);
      }
    }
  }

  lemma WithdrawalCarries(
    before: seq<Token>, after: seq<Token>, u: Uuid, issued: Option<string>, target: Option<Uuid>, now: Time)
    requires OldOnesWithdrawn(before, after, u, now) && |after| == |before|
    ensures Carries(before, after, issued, target, now)
  {
    forall i | 0 <= i < |after|
      ensures Carried(before, after, i, issued, target, now)
      ensures AllDatesTell(before) ==> DatesTell(after[i])
    {
      assert after[i] == Withdrawn(before[i], u, now);
    }
  }

  lemma GenerateCarries(reg: Registry, u: Uuid, raw: string, now: Time)
    requires u in reg.servers
    ensures Carries(reg.tokens, Generate(reg, u, raw, now).0.tokens, Some(raw), Some(u), now)
  {
    IssuedIsOneMore(reg.tokens, u, raw, now);
    OneMoreCarries(reg.tokens, RevokedActive(reg.tokens, u, now) + [NewToken(u, raw, now)], u, raw, now);
  }

  lemma ForceReinstallCarries(reg: Registry, u: Uuid, raw: string, now: Time)
    requires u in reg.servers
    ensures Carries(reg.tokens, ForceReinstall(reg, u, raw, now).0.tokens, Some(raw), Some(u), now)
  {
    IssuedIsOneMore(reg.tokens, u, raw, now);
    OneMoreCarries(reg.tokens, RevokedActive(reg.tokens, u, now) + [NewToken(u, raw, now)], u, raw, now);
  }

  lemma RegenerateCarries(reg: Registry, u: Uuid, raw: string, now: Time)
    requires u in reg.servers
    ensures Carries(reg.tokens, Regenerate(reg, u, raw, now).0.tokens, Some(raw), Some(u), now)
  {
    var revoked := RevokedActive(reg.tokens, u, now);
    RevokedAreWithdrawn(reg.tokens, u, now);
    WithdrawalCarries(reg.tokens, revoked, u, Some(raw), Some(u), now);
    GenerateCarries(reg.(tokens := revoked), u, raw, now);
    CarriesTransitive(reg.tokens, revoked, Regenerate(reg, u, raw, now).0.tokens, Some(raw), Some(u), now);
  }

  lemma CarriesTransitive(
    a: seq<Token>, b: seq<Token>, c: seq<Token>, issued: Option<string>, target: Option<Uuid>, now: Time)
    requires |a| == |b| && Carries(a, b, issued, target, now) && Carries(b, c, issued, target, now)
    ensures Carries(a, c, issued, target, now)
  {
    forall i | 0 <= i < |c|
      ensures Carried(a, c, i, issued, target, now)
    {
      assert Carried(b, c, i, issued, target, now);
      assert i < |b| ==> Carried(a, b, i, issued, target, now);
    }
  }

  lemma RegisterCarries(reg: Registry, raw: string, m: Metadata, now: Time)
    requires TokensOk(reg) && Ownership(reg.servers, reg.agents)
    ensures Carries(reg.tokens, Register(reg, raw, m, now).0.tokens, None, None, now)
  {
  }

  lemma CheckExpirationCarries(reg: Registry, u: Uuid, now: Time)
    requires u in reg.servers
    ensures Carries(reg.tokens, CheckExpiration(reg, u, now).tokens, None, None, now)
  {
  }

  lemma CleanupCarries(tokens: seq<Token>, now: Time)
    ensures Carries(tokens, Cleaned(tokens, now), None, None, now)
  {
  }
}
