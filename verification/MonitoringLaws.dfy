/** Laws of monitoring runs: heartbeats, monitor jobs, delayed checks and detail reads in any order. */
module MonitoringLaws {
  import opened Common
  import opened Clock
  import opened Schema
  import opened Database
  import opened Monitor
  import opened Heartbeat
  import opened Effects
  import opened Fleet

  /** One tick, when it happens and the threshold setting it reads. */
  datatype Moment = Moment(now: Time, raw: int, tick: Tick)

  /** Any number of ticks, from any world: what happens between two provisioning steps. */
  function Watch(w: World, run: seq<Moment>): World {
    var n := |run|;
    if n == 0 then w
    else
      var m := run[n - 1];
      Ticked(Watch(w, run[..n - 1]), m.tick, m.now, m.raw)
  }

  lemma {:induction false} WatchKeepsRegistry(w: World, run: seq<Moment>)
    ensures SameRegistry(w.reg, Watch(w, run).reg)
  {
    var n := |run|;
    if n > 0 {
      WatchKeepsRegistry(w, run[..n - 1]);
      var m, mid := run[n - 1], Watch(w, run[..n - 1]);
      TickRegistry(mid, m.tick, m.now, m.raw);
      SameRegistryTransitive(w.reg, mid.reg, Watch(w, run).reg);
    }
  }

  // ---- the log ----

  /** Transitions that lead from one status to another, each a real change. */
  ghost predicate Follows(from: Status, log: seq<Status>, to: Status) {
    && (if log == [] then from == to else log[0] != from && log[|log| - 1] == to)
    && (forall k :: 0 <= k < |log| ==> log[k] in {Online, Offline})
    && (forall k :: 0 < k < |log| ==> log[k] != log[k - 1])
  }

  lemma FollowsStep(from: Status, base: seq<Status>, log: seq<Status>, to: Status, next: Status, longer: seq<Status>)
    requires base <= log && Follows(from, log[|base|..], to)
    requires longer == log + (if next != to then [next] else [])
    requires next != to ==> next in {Online, Offline}
    ensures base <= longer && Follows(from, longer[|base|..], next)
  {
    if next != to {
      assert longer[|base|..] == log[|base|..] + [next];
    } else {
      assert longer == log;
    }
  }

  /** One tick logs a transition exactly when the stored status changes, and then logs the new status. */
  lemma {:induction false} TickLogs(w: World, m: Moment, u: Uuid)
    requires u in w.reg.servers
    ensures var after := Ticked(w, m.tick, m.now, m.raw);
            && u in after.reg.servers
            && var from, to := w.reg.servers[u].status, after.reg.servers[u].status;
               && LogOf(after.activities, u) == LogOf(w.activities, u) + (if to != from then [to] else [])
               && (to != from ==> to in {Online, Offline})
  {
    TickEffect(w, m.tick, m.now, m.raw, u);
  }

  /**
   Whichever writer acts, the transitions logged for a server in a monitoring run
   strictly alternate, start with a change, and end at the status that is stored.
   */
  lemma {:induction false} LogFollowsStatus(w: World, run: seq<Moment>, u: Uuid)
    requires u in w.reg.servers
    ensures var after := Watch(w, run);
            && u in after.reg.servers
            && LogOf(w.activities, u) <= LogOf(after.activities, u)
            && Follows(w.reg.servers[u].status,
                       LogOf(after.activities, u)[|LogOf(w.activities, u)|..],
                       after.reg.servers[u].status)
  {
    var n := |run|;
    if n > 0 {
      LogFollowsStatus(w, run[..n - 1], u);
      var mid, after := Watch(w, run[..n - 1]), Watch(w, run);
      TickLogs(mid, run[n - 1], u);
      FollowsStep(w.reg.servers[u].status, LogOf(w.activities, u), LogOf(mid.activities, u), mid.reg.servers[u].status,
                  after.reg.servers[u].status, LogOf(after.activities, u));
    }
  }

  // ---- what a health check looks at ----

  /** In service, and owned by an active agent. */
  predicate HasLiveOwner(reg: Registry, u: Uuid) {
    && u in reg.servers && !reg.servers[u].agentDeleted && reg.servers[u].status != Archived
    && reg.servers[u].agentId.Some? && reg.servers[u].agentId.value < |reg.agents|
    && reg.agents[reg.servers[u].agentId.value].status == Active
  }

  lemma WatchedHasLiveOwner(reg: Registry, u: Uuid)
    ensures Watched(reg, u) <==> HasLiveOwner(reg, u)
  {
  }

  // ---- who brings a server online ----

  /** The owner of `u` beats and lists it. */
  ghost predicate OwnerBeats(reg: Registry, t: Tick, u: Uuid) {
    u in reg.servers && u in AcceptedBy(reg, t)
  }

  /** An accepted server belongs to the agent that beats, which is active, and is in service. */
  lemma AcceptedIsOwned(reg: Registry, t: Tick, u: Uuid)
    requires u in AcceptedBy(reg, t)
    ensures SeenBy(reg, t).Some? && reg.servers[u].agentId == SeenBy(reg, t)
    ensures reg.agents[SeenBy(reg, t).value].status == Active && HasLiveOwner(reg, u)
  {
  }

  /**
   A server becomes online in two ways only: its owner's heartbeat lists it, or a
   health check finds the owner of an offline server seen within the threshold.
   */
  lemma OnlineExactlyWhen(w: World, t: Tick, now: Time, raw: int, u: Uuid)
    requires u in w.reg.servers && w.reg.servers[u].status != Online
    ensures u in Ticked(w, t, now, raw).reg.servers
    ensures (Ticked(w, t, now, raw).reg.servers[u].status == Online
             <==> (OwnerBeats(w.reg, t, u)
                   || (CheckedBy(w, t, now) == Some(u) && HasLiveOwner(w.reg, u)
                       && w.reg.servers[u].status == Offline && !Overdue(w.reg, u, now, raw))))
  {
    TickEffect(w, t, now, raw, u);
  }

  /** The second until which the detail page's lock is held. */
  function LockOf(w: World, u: Uuid): Stamp {
    if u in w.locks then w.locks[u] else 0
  }

  /** A page judges the server by its owner, and nobody holds the lock. */
  predicate PageMayWrite(w: World, u: Uuid, now: Time)
    requires u in w.reg.servers
  {
    w.reg.servers[u].status !in {AgentUninstalled, WaitingForFirstHeartbeat} && LockOf(w, u) <= StampOf(now)
  }

  /** A server becomes offline exactly when a check or an unlocked detail page finds its active owner overdue. */
  lemma OfflineExactlyWhen(w: World, t: Tick, now: Time, raw: int, u: Uuid)
    requires u in w.reg.servers && w.reg.servers[u].status != Offline
    ensures u in Ticked(w, t, now, raw).reg.servers
    ensures (Ticked(w, t, now, raw).reg.servers[u].status == Offline
             <==> (&& HasLiveOwner(w.reg, u) && Overdue(w.reg, u, now, raw)
                   && (CheckedBy(w, t, now) == Some(u) || (t == ReadDetail(u) && PageMayWrite(w, u, now)))))
  {
    TickEffect(w, t, now, raw, u);
  }

  /** A server flagged deleted or archived is left alone by every monitoring run. */
  lemma {:induction false} DecommissionedIsFrozen(w: World, run: seq<Moment>, u: Uuid)
    requires u in w.reg.servers && (w.reg.servers[u].agentDeleted || w.reg.servers[u].status == Archived)
    ensures var after := Watch(w, run);
            && u in after.reg.servers && after.reg.servers[u] == w.reg.servers[u]
            && LogOf(after.activities, u) == LogOf(w.activities, u)
  {
    var n := |run|;
    if n > 0 {
      DecommissionedIsFrozen(w, run[..n - 1], u);
      var m, mid := run[n - 1], Watch(w, run[..n - 1]);
      TickEffect(mid, m.tick, m.now, m.raw, u);
    }
  }

  // ---- the answer to a heartbeat ----

  /** The listed uuids that are not passed over. */
  function Named(listed: seq<string>): seq<string> {
    var n := |listed|;
    if n == 0 then [] else Named(listed[..n - 1]) + if IsEmptyUuid(listed[n - 1]) then [] else [listed[n - 1]]
  }

  lemma OneMore<T>(a: seq<T>, b: seq<T>, all: seq<T>, x: T, toA: bool, toB: bool)
    requires !(toA && toB) && multiset(a) + multiset(b) == multiset(all)
    ensures multiset(a + if toA then [x] else []) + multiset(b + if toB then [x] else [])
         == multiset(all + if toA || toB then [x] else [])
  {
  }

  lemma {:induction false} NamedStep(reg: Registry, agent: nat, front: seq<string>, last: string)
    ensures Named(front + [last])
         == Named(front)
            + if Accepts(reg, agent, last) || (!Accepts(reg, agent, last) && !IsEmptyUuid(last)) then [last] else []
  {
    assert (front + [last])[..|front|] == front;
  }

  lemma {:induction false} NothingListed(reg: Registry, agent: nat)
    ensures AcceptedOf(reg, agent, []) == [] && RevokedOf(reg, agent, []) == [] && Named([]) == []
  {
  }

  lemma {:induction false} AnswersCount(reg: Registry, agent: nat, listed: seq<string>)
    ensures multiset(AcceptedOf(reg, agent, listed)) + multiset(RevokedOf(reg, agent, listed))
         == multiset(Named(listed))
  {
    hide *;
    var n := |listed|;
    if n == 0 {
      assert listed == [];
      NothingListed(reg, agent);
    } else {
      var front, last := listed[..n - 1], listed[n - 1];
      AnswersCount(reg, agent, front);
      assert listed == front + [last];
      AnswerStep(reg, agent, front, last);
      NamedStep(reg, agent, front, last);
      OneMore(AcceptedOf(reg, agent, front), RevokedOf(reg, agent, front), Named(front), last,
              Accepts(reg, agent, last), !Accepts(reg, agent, last) && !IsEmptyUuid(last));
    }
  }

  /** Every listing that names a uuid is answered once, as accepted or as revoked, and never the same uuid as both. */
  lemma {:induction false} EveryListingIsAnswered(reg: Registry, agent: nat, listed: seq<string>)
    ensures var accepted, revoked := AcceptedOf(reg, agent, listed), RevokedOf(reg, agent, listed);
            && multiset(accepted) + multiset(revoked) == multiset(Named(listed))
            && forall u :: !(u in accepted && u in revoked)
  {
    AnswersCount(reg, agent, listed);
  }

  // ---- the status a detail page shows ----

  /**
   The page shows what is stored after the read, with two exceptions: it runs ahead
   of the stored status when the owner's health and the status disagree and the page
   does not write (the lock is taken, or the server has recovered), and a deleted
   server is shown as uninstalled whatever it stores.
   */
  lemma ShownIsStoredUnless(w: World, u: Uuid, now: Time, raw: int)
    requires u in w.reg.servers
    ensures u in DetailRead(w, u, now, raw).0.reg.servers
    ensures var (after, shown) := DetailRead(w, u, now, raw);
            var s := w.reg.servers[u];
            (shown != after.reg.servers[u].status <==>
               (if s.status == Archived || s.status == AgentUninstalled then false
                else if s.agentDeleted then true
                else
                  && HasLiveOwner(w.reg, u) && s.status != WaitingForFirstHeartbeat
                  && if Overdue(w.reg, u, now, raw) then s.status != Offline && LockOf(w, u) > StampOf(now)
                     else s.status == Offline))
  {
    DetailWritesTheTransition(w, u, now, raw);
  }

  /**
   What a page shows of a server that is not stored offline: offline exactly when its live owner is
   overdue and it is in a state a page judges, else what is stored, or uninstalled for a deleted one.
   */
  lemma ShownOfflineExactlyWhen(w: World, u: Uuid, now: Time, raw: int)
    requires u in w.reg.servers && w.reg.servers[u].status != Offline
    ensures var s, shown := w.reg.servers[u], DetailRead(w, u, now, raw).1;
            && (shown == Offline <==>
                  && HasLiveOwner(w.reg, u) && Overdue(w.reg, u, now, raw)
                  && s.status !in {AgentUninstalled, WaitingForFirstHeartbeat})
            && (shown != Offline ==>
                  shown == if s.status == Archived then Archived
                           else if s.agentDeleted then AgentUninstalled
                           else s.status)
  {
  }

  // ---- the lock of the detail page ----

  lemma {:induction false} ServedAllLocks(w: World, us: seq<Uuid>, now: Time, raw: int)
    requires forall v :: v in us ==> v in w.reg.servers
    ensures ServedAll(w, us, now, raw).locks == w.locks
  {
    if us != [] {
      ServedAllLocks(w, us[..|us| - 1], now, raw);
    }
  }

  lemma BeatenLocks(w: World, agent: nat, accepted: seq<Uuid>, now: Time, raw: int)
    requires agent < |w.reg.agents| && forall v :: v in accepted ==> v in w.reg.servers
    ensures Beaten(w, agent, accepted, now, raw).locks == w.locks
  {
    var gain := Gain(w.reg.agents[agent].lastSeen, now, raw);
    CreditedAllFrame(w, accepted, gain);
    ServedAllLocks(Seen(CreditedAll(w, accepted, gain), agent, now), accepted, now, raw);
  }

  /**
   A page that takes the server offline needs a lock that has run out, and
   takes it for a minute; nothing else touches it.
   */
  lemma TickLock(w: World, t: Tick, now: Time, raw: int, u: Uuid)
    requires u in w.reg.servers
    ensures var after := Ticked(w, t, now, raw);
            && u in after.reg.servers
            && if t == ReadDetail(u) && w.reg.servers[u].status != Offline
                  && after.reg.servers[u].status == Offline then
                 LockOf(w, u) <= StampOf(now) && LockOf(after, u) == StampOf(now) + 60
               else LockOf(after, u) == LockOf(w, u)
  {
    TickRegistry(w, t, now, raw);
    match t
    case Beat(agent, listed) =>
      if Authenticates(w.reg, agent) { BeatenLocks(w, agent, AcceptedOf(w.reg, agent, listed), now, raw); }
    case LegacyBeat(agent, v) =>
      if AcceptedBy(w.reg, t) != [] { BeatenLocks(w, agent, [v], now, raw); }
    case ReadDetail(v) =>
      if v in w.reg.servers { DetailWritesTheTransition(w, v, now, raw); }
    case _ =>
  }

  /** Step `k` of the run is a detail page that takes the server offline. */
  ghost predicate PageAlarmsAt(w: World, run: seq<Moment>, k: nat, u: Uuid) {
    && k < |run| && run[k].tick == ReadDetail(u)
    && u in Watch(w, run[..k]).reg.servers && Watch(w, run[..k]).reg.servers[u].status != Offline
    && u in Watch(w, run[..k + 1]).reg.servers && Watch(w, run[..k + 1]).reg.servers[u].status == Offline
  }

  lemma {:induction false} LockOnlyGrows(w: World, run: seq<Moment>, u: Uuid, k: nat)
    requires u in w.reg.servers && k <= |run|
    ensures LockOf(Watch(w, run[..k]), u) <= LockOf(Watch(w, run), u)
  {
    if k == |run| {
      assert run[..k] == run;
    } else {
      var n := |run| - 1;
      LockOnlyGrows(w, run[..n], u, k);
      assert run[..n][..k] == run[..k];
      WatchKeepsRegistry(w, run[..n]);
      TickLock(Watch(w, run[..n]), run[n].tick, run[n].now, run[n].raw, u);
    }
  }

  lemma {:induction false} AlarmTakesLock(w: World, run: seq<Moment>, k: nat, u: Uuid)
    requires u in w.reg.servers && PageAlarmsAt(w, run, k, u)
    ensures LockOf(Watch(w, run[..k]), u) <= StampOf(run[k].now)
    ensures LockOf(Watch(w, run[..k + 1]), u) == StampOf(run[k].now) + 60
  {
    assert run[..k + 1][..k] == run[..k];
    TickLock(Watch(w, run[..k]), run[k].tick, run[k].now, run[k].raw, u);
  }

  /**
   In any monitoring run from any world two detail pages that take the
   same server offline are at least a minute apart.
   */
  lemma {:induction false} PagesAlarmAMinuteApart(w: World, run: seq<Moment>, i: nat, j: nat, u: Uuid)
    requires u in w.reg.servers && i < j && PageAlarmsAt(w, run, i, u) && PageAlarmsAt(w, run, j, u)
    ensures StampOf(run[i].now) + 60 <= StampOf(run[j].now)
  {
    AlarmTakesLock(w, run, i, u);
    AlarmTakesLock(w, run, j, u);
    LockOnlyGrows(w, run[..j], u, i + 1);
    assert run[..j][..i + 1] == run[..i + 1];
  }

  // ---- delayed checks ----

  lemma CountOfOneMore(front: seq<Uuid>, last: Uuid, u: Uuid)
    ensures multiset(front + [last])[u] == multiset(front)[u] + if last == u then 1 else 0
  {
  }

  lemma ServedCount(w: World, v: Uuid, now: Time, raw: int, job: Job)
    requires v in w.reg.servers
    ensures Served(w, v, now, raw).jobs[job]
         == w.jobs[job] + if job.due == StampOf(now) + Threshold(raw) + 2 && v == job.server then 1 else 0
  {
    ServedFrame(w, v, now, raw);
  }

  lemma {:induction false} ServedAllCounts(w: World, us: seq<Uuid>, now: Time, raw: int, job: Job)
    requires forall v :: v in us ==> v in w.reg.servers
    ensures ServedAll(w, us, now, raw).jobs[job]
         == w.jobs[job] + if job.due == StampOf(now) + Threshold(raw) + 2 then multiset(us)[job.server] else 0
  {
    hide Served, BroughtOnline, Threshold, SecondsSetting;
    if us != [] {
      var front, last := us[..|us| - 1], us[|us| - 1];
      ServedAllCounts(w, front, now, raw, job);
      ServedCount(ServedAll(w, front, now, raw), last, now, raw, job);
      CountOfOneMore(front, last, job.server);
      assert us == front + [last];
    }
  }

  lemma BeatenCounts(w: World, agent: nat, accepted: seq<Uuid>, now: Time, raw: int, job: Job)
    requires agent < |w.reg.agents| && forall v :: v in accepted ==> v in w.reg.servers
    ensures Beaten(w, agent, accepted, now, raw).jobs[job]
         == w.jobs[job] + if job.due == StampOf(now) + Threshold(raw) + 2 then multiset(accepted)[job.server] else 0
  {
    var gain := Gain(w.reg.agents[agent].lastSeen, now, raw);
    CreditedAllFrame(w, accepted, gain);
    ServedAllCounts(Seen(CreditedAll(w, accepted, gain), agent, now), accepted, now, raw, job);
  }

  /**
   Delayed checks are conserved: each accepted listing schedules one, two seconds past the
   threshold after the second of the heartbeat, a check that runs is used up, and no other
   step adds or drops any.
   */
  lemma ChecksAreConserved(w: World, t: Tick, now: Time, raw: int, job: Job)
    ensures Ticked(w, t, now, raw).jobs[job]
         == match t
            case RunCheck(ran) =>
              w.jobs[job] - if ran == job && job in w.jobs && job.due * MICROS <= now then 1 else 0
            case _ =>
              w.jobs[job]
              + if job.due == StampOf(now) + Threshold(raw) + 2 then multiset(AcceptedBy(w.reg, t))[job.server] else 0
  {
    match t
    case Beat(agent, listed) =>
      if Authenticates(w.reg, agent) { BeatenCounts(w, agent, AcceptedOf(w.reg, agent, listed), now, raw, job); }
    case LegacyBeat(agent, v) =>
      if AcceptedBy(w.reg, t) != [] { BeatenCounts(w, agent, [v], now, raw, job); }
    case RunMonitor(v) => MonitoredRegistry(w, v, now, raw);
    case RunCheck(ran) => MonitoredRegistry(w.(jobs := w.jobs - multiset{ran}), ran.server, now, raw);
    case ReadDetail(v) =>
      if v in w.reg.servers { DetailRegistry(w, v, now, raw); }
  }

}
