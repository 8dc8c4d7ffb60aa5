/** The tables shared by provisioning and monitoring, as one object. */
module Database {
  import opened Common
  import opened Clock
  import opened Schema

  /** Who owns what, and the one-shot tokens that decide it. */
  datatype Registry = Registry(servers: map<Uuid, Server>, agents: seq<Agent>, tokens: seq<Token>)

  /** A logged `server_online` or `server_offline` activity. */
  datatype Transition = Transition(server: Uuid, status: Status)

  /** A delayed `CheckServerOffline` job and the second it becomes available. */
  datatype Job = Job(server: Uuid, due: int)

  datatype World = World(
    reg: Registry,
    activities: seq<Transition>,
    items: seq<ActionItem>,
    jobs: multiset<Job>,
    locks: map<Uuid, Stamp>)

  const EMPTY: World := World(Registry(map[], [], []), [], [], multiset{}, map[])

  class Tables {
    var servers: map<Uuid, Server>
    var agents: seq<Agent>
    var tokens: seq<Token>
    var activities: seq<Transition>
    var items: seq<ActionItem>
    var jobs: multiset<Job>
    var locks: map<Uuid, Stamp>

    function Reg(): Registry
      reads this
    {
      Registry(servers, agents, tokens)
    }

    function Snapshot(): World
      reads this
    {
      World(Reg(), activities, items, jobs, locks)
    }

    constructor ()
      ensures Snapshot() == EMPTY
    {
      servers, agents, tokens := map[], [], [];
      activities, items, jobs, locks := [], [], multiset{}, map[];
    }
  }

  /** The columns that are declared as foreign keys point at existing rows. */
  ghost predicate ForeignKeys(reg: Registry) {
    && (forall u :: u in reg.servers && reg.servers[u].agentId.Some? ==> reg.servers[u].agentId.value < |reg.agents|)
    && (forall a :: 0 <= a < |reg.agents| && reg.agents[a].serverId.Some?
          ==> reg.agents[a].serverId.value in reg.servers)
    && (forall i :: 0 <= i < |reg.tokens| ==> reg.tokens[i].server in reg.servers)
  }
}
