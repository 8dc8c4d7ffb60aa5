/** Rows of the tables the monitoring side of the application works on. */
module Schema {
  import opened Common
  import opened Clock

  /** A server is identified by its uuid, an agent by the position of its row. */
  type Uuid = string

  datatype Status =
    | PendingInstallation
    | WaitingForInstallation
    | WaitingForFirstHeartbeat
    | Online
    | Offline
    | Archived
    | AgentUninstalled

  datatype Server = Server(
    clientId: nat,
    agentId: Option<nat>,
    status: Status,
    agentDeleted: bool,
    onlineSeconds: nat,
    wentOfflineAt: Option<Stamp>)

  datatype AgentStatus = Active | Revoked

  /** `serverId` is the legacy pointer; ownership is `Server.agentId`. */
  datatype Agent = Agent(installation: string, status: AgentStatus, serverId: Option<Uuid>, lastSeen: Option<Stamp>)

  datatype TokenStatus = TokenActive | TokenUsed | TokenRevoked | TokenExpired

  datatype Token = Token(
    server: Uuid,
    raw: string,
    status: TokenStatus,
    expiresAt: Stamp,
    usedAt: Option<Stamp>,
    revokedAt: Option<Stamp>)

  datatype ItemStatus = Open | Completed

  datatype ActionItem = ActionItem(
    id: nat,
    actionType: string,
    server: Option<Uuid>,
    client: Option<nat>,
    status: ItemStatus,
    assignedTo: Option<nat>)
}
