/** Agent heartbeats (`HeartbeatService::process`, `processAgent`), behind the guards of `AgentController`. */
module Heartbeat {
  import opened Common
  import opened Clock
  import opened Schema
  import opened Database
  import opened Monitor

  // ---- which servers a heartbeat speaks for ----

  predicate IsHex(c: char) {
    '0' <= c <= '9' || 'a' <= c <= 'f' || 'A' <= c <= 'F'
  }

  /** `Str::isUuid`: 8-4-4-4-12 hexadecimal digits. */
  predicate IsUuid(s: string) {
    && |s| == 36
    && forall i :: 0 <= i < 36 ==> if i in {8, 13, 18, 23} then s[i] == '-' else IsHex(s[i])
  }

  /** A partition without a server uuid is passed over; PHP's `empty` also holds of "0". */
  predicate IsEmptyUuid(s: string) {
    s == "" || s == "0"
  }

  /** Known, owned by the agent, and not decommissioned. */
  predicate Accepts(reg: Registry, agent: nat, listed: string) {
    && IsUuid(listed)
    && listed in reg.servers
    && reg.servers[listed].agentId == Some(agent)
    && !Decommissioned(reg.servers[listed])
  }

  function AcceptedOf(reg: Registry, agent: nat, listed: seq<string>): (accepted: seq<Uuid>)
    ensures forall u :: u in accepted <==> u in listed && Accepts(reg, agent, u)
  {
    var n := |listed|;
    if n == 0 then []
    else AcceptedOf(reg, agent, listed[..n - 1]) + if Accepts(reg, agent, listed[n - 1]) then [listed[n - 1]] else []
  }

  function RevokedOf(reg: Registry, agent: nat, listed: seq<string>): (revoked: seq<string>)
    ensures forall u :: u in revoked <==> u in listed && !IsEmptyUuid(u) && !Accepts(reg, agent, u)
  {
    var n := |listed|;
    if n == 0 then []
    else
      RevokedOf(reg, agent, listed[..n - 1])
      + if !IsEmptyUuid(listed[n - 1]) && !Accepts(reg, agent, listed[n - 1]) then [listed[n - 1]] else []
  }

  // ---- online time ----

  /** The longest gap that still counts as online time. */
  function MaxStep(raw: int): int {
    if Threshold(raw) + 5 > 5 then Threshold(raw) + 5 else 5
  }

  /** Seconds since the agent was last seen, if they count. */
  function Gain(lastSeen: Option<Stamp>, now: Time, raw: int): nat {
    if lastSeen.Some? && InstantOf(lastSeen.value) <= now
       && 0 < WholeSecondsSince(lastSeen.value, now) <= MaxStep(raw)
    then WholeSecondsSince(lastSeen.value, now) else 0
  }

  /** The gain is credited to a server that is online. */
  function Credited(w: World, u: Uuid, gain: nat): World
    requires u in w.reg.servers
  {
    var s := w.reg.servers[u];
    if s.status == Online then
      w.(reg := w.reg.(servers := w.reg.servers[u := s.(onlineSeconds := s.onlineSeconds + gain)]))
    else w
  }

  function CreditedAll(w: World, us: seq<Uuid>, gain: nat): (after: World)
    requires forall u :: u in us ==> u in w.reg.servers
    ensures after.reg.agents == w.reg.agents && after.reg.servers.Keys == w.reg.servers.Keys
  {
    var n := |us|;
    if n == 0 then w else Credited(CreditedAll(w, us[..n - 1], gain), us[n - 1], gain)
  }

  // ---- one server comes online ----

  function BroughtOnline(w: World, u: Uuid): World
    requires u in w.reg.servers
  {
    var s := w.reg.servers[u];
    var up :=
      if s.status == Online then w
      else
        w.(reg := w.reg.(servers := w.reg.servers[u := s.(status := Online)]),
           activities := w.activities + [Transition(u, Online)]);
    up.(items := Resolved(w.items, u, false))
  }

  /** What a heartbeat does for one accepted server after the agent row is updated. */
  function Served(w: World, u: Uuid, now: Time, raw: int): World
    requires u in w.reg.servers
  {
    BroughtOnline(w.(jobs := w.jobs + multiset{Job(u, StampOf(now) + Threshold(raw) + 2)}), u)
  }

  function ServedAll(w: World, us: seq<Uuid>, now: Time, raw: int): (after: World)
    requires forall u :: u in us ==> u in w.reg.servers
    ensures after.reg.agents == w.reg.agents && after.reg.servers.Keys == w.reg.servers.Keys
  {
    var n := |us|;
    if n == 0 then w else Served(ServedAll(w, us[..n - 1], now, raw), us[n - 1], now, raw)
  }

  function Seen(w: World, agent: nat, now: Time): World
    requires agent < |w.reg.agents|
  {
    w.(reg := w.reg.(agents := w.reg.agents[agent := w.reg.agents[agent].(lastSeen := Some(StampOf(now)))]))
  }

  /** Online time first, then the agent is seen, then every accepted server is served. */
  function Beaten(w: World, agent: nat, accepted: seq<Uuid>, now: Time, raw: int): World
    requires agent < |w.reg.agents| && forall u :: u in accepted ==> u in w.reg.servers
  {
    var gain := Gain(w.reg.agents[agent].lastSeen, now, raw);
    ServedAll(Seen(CreditedAll(w, accepted, gain), agent, now), accepted, now, raw)
  }

  datatype Response = Unauthenticated | Forbidden | Reply(accepted: seq<Uuid>, revoked: seq<string>)

  /** Only an active agent authenticates. */
  predicate Authenticates(reg: Registry, agent: nat) {
    agent < |reg.agents| && reg.agents[agent].status == Active
  }

  /** The aggregated heartbeat. */
  function Aggregated(w: World, agent: nat, listed: seq<string>, now: Time, raw: int): (World, Response) {
    if !Authenticates(w.reg, agent) then (w, Unauthenticated)
    else
      var accepted := AcceptedOf(w.reg, agent, listed);
      (Beaten(w, agent, accepted, now, raw), Reply(accepted, RevokedOf(w.reg, agent, listed)))
  }

  /** The heartbeat of an older agent, for one server; a refused one changes nothing. */
  function Legacy(w: World, agent: nat, u: Uuid, now: Time, raw: int): (World, Response) {
    if !Authenticates(w.reg, agent) then (w, Unauthenticated)
    else if u !in w.reg.servers || w.reg.servers[u].agentId != Some(agent) || Decommissioned(w.reg.servers[u])
    then (w, Forbidden)
    else (Beaten(w, agent, [u], now, raw), Reply([u], []))
  }

  // ---- the service ----

  method AccumulateOnlineSeconds(db: Tables, agent: nat, u: Uuid, now: Time, raw: int)
    requires u in db.servers && agent < |db.agents| && db.agents[agent].lastSeen.Some?
    modifies db
    ensures var before, gain := old(db.servers), Gain(old(db.agents)[agent].lastSeen, now, raw);
            db.Snapshot() == old(db.Snapshot()).(reg := old(db.Reg()).(
              servers := before[u := before[u].(onlineSeconds := before[u].onlineSeconds + gain)]))
  {
    var lastSeen := db.agents[agent].lastSeen.value;
    var elapsedSeconds := if InstantOf(lastSeen) <= now then WholeSecondsSince(lastSeen, now) else 0;
    var maxStepSeconds := if 5 < Threshold(raw) + 5 then Threshold(raw) + 5 else 5;
    var step := 0;
    if elapsedSeconds > 0 && elapsedSeconds <= maxStepSeconds {
      step := if elapsedSeconds < maxStepSeconds then elapsedSeconds else maxStepSeconds;
    }
    db.servers := db.servers[u := db.servers[u].(onlineSeconds := db.servers[u].onlineSeconds + step)];
  }

  /** Only a server that was already online, of an agent seen before, gains time. */
  method AccumulateIfOnline(db: Tables, agent: nat, u: Uuid, now: Time, raw: int)
    requires u in db.servers && agent < |db.agents|
    modifies db
    ensures db.Snapshot() == Credited(old(db.Snapshot()), u, Gain(old(db.agents)[agent].lastSeen, now, raw))
  {
    if db.servers[u].status == Online && db.agents[agent].lastSeen.Some? {
      AccumulateOnlineSeconds(db, agent, u, now, raw);
    } else {
      assert db.servers[u := db.servers[u]] == db.servers;
    }
  }

  method BringServerOnline(db: Tables, u: Uuid)
    requires u in db.servers
    modifies db
    ensures db.Snapshot() == BroughtOnline(old(db.Snapshot()), u)
  {
    if db.servers[u].status != Online {
      db.servers := db.servers[u := db.servers[u].(status := Online)];
      db.activities := db.activities + [Transition(u, Online)];
    }
    db.items := CompleteAssigned(db.items, u, false);
    db.items := DeleteUnassigned(db.items, u, false);
  }

  /** The first loop of `processAgent`: who is accepted and who is revoked. */
  method Partition(db: Tables, agent: nat, listed: seq<string>) returns (accepted: seq<Uuid>, revoked: seq<string>)
    ensures accepted == AcceptedOf(db.Reg(), agent, listed) && revoked == RevokedOf(db.Reg(), agent, listed)
  {
    accepted, revoked := [], [];
    var i := 0;
    while i < |listed|
      invariant 0 <= i <= |listed|
      invariant accepted == AcceptedOf(db.Reg(), agent, listed[..i])
      invariant revoked == RevokedOf(db.Reg(), agent, listed[..i])
    {
      assert listed[..i + 1][..i] == listed[..i];
      var uuid := listed[i];
      if !IsEmptyUuid(uuid) {
        if !IsUuid(uuid) {
          revoked := revoked + [uuid];
        } else if uuid !in db.servers || db.servers[uuid].agentId != Some(agent)
                  || db.servers[uuid].agentDeleted || db.servers[uuid].status == Archived {
          revoked := revoked + [uuid];
        } else {
          accepted := accepted + [uuid];
        }
      }
      i := i + 1;
    }
    assert listed[..i] == listed;
  }

  method AccumulateForAll(db: Tables, agent: nat, accepted: seq<Uuid>, now: Time, raw: int)
    requires agent < |db.agents| && forall u :: u in accepted ==> u in db.servers
    modifies db
    ensures db.Snapshot() == CreditedAll(old(db.Snapshot()), accepted, Gain(old(db.agents)[agent].lastSeen, now, raw))
  {
    ghost var gain := Gain(db.agents[agent].lastSeen, now, raw);
    var i := 0;
    while i < |accepted|
      invariant 0 <= i <= |accepted| && db.agents == old(db.agents)
      invariant db.Snapshot() == CreditedAll(old(db.Snapshot()), accepted[..i], gain)
    {
      assert accepted[..i + 1][..i] == accepted[..i];
      AccumulateIfOnline(db, agent, accepted[i], now, raw);
      i := i + 1;
    }
    assert accepted[..i] == accepted;
  }

  /** The delayed check is dispatched, then the server is online. */
  method ServeOne(db: Tables, u: Uuid, now: Time, raw: int)
    requires u in db.servers
    modifies db
    ensures db.Snapshot() == Served(old(db.Snapshot()), u, now, raw)
  {
    db.jobs := db.jobs + multiset{Job(u, StampOf(now) + Threshold(raw) + 2)};
    BringServerOnline(db, u);
  }

  method ServeAll(db: Tables, accepted: seq<Uuid>, now: Time, raw: int)
    requires forall u :: u in accepted ==> u in db.servers
    modifies db
    ensures db.Snapshot() == ServedAll(old(db.Snapshot()), accepted, now, raw)
  {
    var i := 0;
    while i < |accepted|
      invariant 0 <= i <= |accepted|
      invariant db.Snapshot() == ServedAll(old(db.Snapshot()), accepted[..i], now, raw)
    {
      assert accepted[..i + 1][..i] == accepted[..i];
      ServeOne(db, accepted[i], now, raw);
      i := i + 1;
    }
    assert accepted[..i] == accepted;
  }

  /** `processAgent`. */
  method ProcessAgent(db: Tables, agent: nat, listed: seq<string>, now: Time, raw: int) returns (response: Response)
    modifies db
    ensures (db.Snapshot(), response) == Aggregated(old(db.Snapshot()), agent, listed, now, raw)
  {
    if agent >= |db.agents| || db.agents[agent].status != Active {
      return Unauthenticated;
    }
    var accepted, revoked := Partition(db, agent, listed);
    AccumulateForAll(db, agent, accepted, now, raw);
    db.agents := db.agents[agent := db.agents[agent].(lastSeen := Some(StampOf(now)))];
    ServeAll(db, accepted, now, raw);
    response := Reply(accepted, revoked);
  }

  /** `process`, behind the ownership and lifecycle checks of the controller. */
  method Process(db: Tables, agent: nat, u: Uuid, now: Time, raw: int) returns (response: Response)
    modifies db
    ensures (db.Snapshot(), response) == Legacy(old(db.Snapshot()), agent, u, now, raw)
  {
    if agent >= |db.agents| || db.agents[agent].status != Active {
      return Unauthenticated;
    }
    if u !in db.servers || db.servers[u].agentId != Some(agent) || db.servers[u].agentDeleted
       || db.servers[u].status == Archived {
      return Forbidden;
    }
    BeatOfOne(db.Snapshot(), agent, u, now, raw);
    AccumulateIfOnline(db, agent, u, now, raw);
    db.agents := db.agents[agent := db.agents[agent].(lastSeen := Some(StampOf(now)))];
    ServeOne(db, u, now, raw);
    response := Reply([u], []);
  }

  lemma BeatOfOne(w: World, agent: nat, u: Uuid, now: Time, raw: int)
    requires agent < |w.reg.agents| && u in w.reg.servers
    ensures var gain := Gain(w.reg.agents[agent].lastSeen, now, raw);
            Beaten(w, agent, [u], now, raw) == Served(Seen(Credited(w, u, gain), agent, now), u, now, raw)
  {
    var gain := Gain(w.reg.agents[agent].lastSeen, now, raw);
    assert [u][..0] == [];
    assert CreditedAll(w, [], gain) == w;
    assert CreditedAll(w, [u], gain) == Credited(w, u, gain);
    var seen := Seen(Credited(w, u, gain), agent, now);
    assert ServedAll(seen, [], now, raw) == seen;
    assert ServedAll(seen, [u], now, raw) == Served(seen, u, now, raw);
  }
}
