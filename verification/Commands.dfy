/** Agent commands: claimed once by a heartbeat, then acknowledged (`HeartbeatService`). */
module Commands {
  import opened Common
  import opened Clock
  import Sorting

  const PENDING: string := "pending"
  const SENT: string := "sent"

  datatype Command = Command(agent: nat, priority: int, createdAt: Stamp, status: string, expiresAt: Option<Stamp>)

  /** The table; a command's id is its position. */
  type CommandTable = seq<Command>

  /** An acknowledgement; an absent status means completed. */
  datatype Ack = Ack(command: Option<nat>, status: Option<string>)

  /** Pending, the agent's, and not expired: strictly before `expires_at`. */
  predicate IsDue(c: Command, agent: nat, now: Time) {
    c.agent == agent && c.status == PENDING && (c.expiresAt.None? || InstantOf(c.expiresAt.value) > now)
  }

  function DueIds(commands: CommandTable, agent: nat, now: Time): seq<nat> {
    var n := |commands|;
    if n == 0 then []
    else DueIds(commands[..n - 1], agent, now) + if IsDue(commands[n - 1], agent, now) then [n - 1] else []
  }

  /** `orderBy('priority')->orderBy('created_at')`. */
  function ByUrgency(commands: CommandTable): (nat, nat) -> bool {
    (a: nat, b: nat) =>
      if a < |commands| && b < |commands| then
        commands[a].priority < commands[b].priority
        || (commands[a].priority == commands[b].priority && commands[a].createdAt <= commands[b].createdAt)
      else a < |commands| || b >= |commands|
  }

  /** The ids a heartbeat response carries, in its order. */
  function Claimed(commands: CommandTable, agent: nat, now: Time): seq<nat> {
    Sorting.SortBy(DueIds(commands, agent, now), ByUrgency(commands))
  }

  function AfterClaim(commands: CommandTable, agent: nat, now: Time): CommandTable {
    seq(|commands|, i requires 0 <= i < |commands| =>
      if IsDue(commands[i], agent, now) then commands[i].(status := SENT) else commands[i])
  }

  function AfterAck(commands: CommandTable, ack: Ack): CommandTable {
    if ack.command.None? || ack.command.value >= |commands| then commands
    else
      var id := ack.command.value;
      commands[id := commands[id].(status := if ack.status.Some? then ack.status.value else "completed")]
  }

  function AfterAcks(commands: CommandTable, acks: seq<Ack>): CommandTable {
    var n := |acks|;
    if n == 0 then commands else AfterAck(AfterAcks(commands, acks[..n - 1]), acks[n - 1])
  }

  lemma UrgencyIsOrder(commands: CommandTable)
    ensures Sorting.TotalPreorder(ByUrgency(commands))
  {
  }

  lemma {:induction false} DueIdsAre(commands: CommandTable, agent: nat, now: Time)
    ensures forall id: nat :: id in DueIds(commands, agent, now) <==> id < |commands| && IsDue(commands[id], agent, now)
    ensures forall i, j :: 0 <= i < j < |DueIds(commands, agent, now)| ==>
              DueIds(commands, agent, now)[i] < DueIds(commands, agent, now)[j]
  {
    if commands != [] {
      DueIdsAre(commands[..|commands| - 1], agent, now);
      var front := DueIds(commands[..|commands| - 1], agent, now);
      assert forall i :: 0 <= i < |front| ==> front[i] in front;
    }
  }

  class CommandQueue {
    var commands: CommandTable

    /** `claimPendingCommands`: what is due, most urgent first, each marked sent. */
    method ClaimPendingCommands(agent: nat, now: Time) returns (payload: seq<nat>)
      modifies this
      ensures payload == Claimed(old(commands), agent, now)
      ensures commands == AfterClaim(old(commands), agent, now)
    {
      var pending := Sorting.SortBy(DueIds(commands, agent, now), ByUrgency(commands));
      DueIdsAre(commands, agent, now);
      UrgencyIsOrder(commands);
      Sorting.SortKeepsMembers(DueIds(commands, agent, now), ByUrgency(commands));
      payload := [];
      var i := 0;
      while i < |pending|
        invariant 0 <= i <= |pending| && |commands| == |old(commands)|
        invariant payload == pending[..i]
        invariant forall k :: 0 <= k < |commands| ==>
                    commands[k] == if k in pending[..i] then old(commands)[k].(status := SENT) else old(commands)[k]
      {
        var id := pending[i];
        assert id in pending;
        commands := commands[id := commands[id].(status := SENT)];
        payload := payload + [id];
        assert pending[..i + 1] == pending[..i] + [id];
        i := i + 1;
      }
      assert pending[..i] == pending;
    }

    /** `processCompletedCommands`: unknown ids are passed over. */
    method ProcessCompletedCommands(completed: seq<Ack>)
      modifies this
      ensures commands == AfterAcks(old(commands), completed)
    {
      var i := 0;
      while i < |completed|
        invariant 0 <= i <= |completed|
        invariant commands == AfterAcks(old(commands), completed[..i])
      {
        assert completed[..i + 1][..i] == completed[..i];
        var ack := completed[i];
        if ack.command.Some? && ack.command.value < |commands| {
          var status := if ack.status.Some? then ack.status.value else "completed";
          commands := commands[ack.command.value := commands[ack.command.value].(status := status)];
        }
        i := i + 1;
      }
      assert completed[..i] == completed;
    }
  }

  // ---- one response ----

  /** The agent's, still pending, and not yet at its expiry. */
  predicate IsWaiting(c: Command, agent: nat, now: Time) {
    c.agent == agent && c.status == "pending" && (c.expiresAt.Some? ==> now < InstantOf(c.expiresAt.value))
  }

  /** The lower priority number goes first, and the older of two with the same number. */
  predicate NoLater(a: Command, b: Command) {
    a.priority < b.priority || (a.priority == b.priority && a.createdAt <= b.createdAt)
  }

  /** A response carries exactly the agent's due commands, each once, by priority and then age. */
  lemma ResponseIsExact(commands: CommandTable, agent: nat, now: Time)
    ensures var ids := Claimed(commands, agent, now);
            && (forall id: nat :: id in ids <==> id < |commands| && IsWaiting(commands[id], agent, now))
            && (forall i, j :: 0 <= i < j < |ids| ==>
                  ids[i] != ids[j]
                  && ids[i] < |commands| && ids[j] < |commands|
                  && NoLater(commands[ids[i]], commands[ids[j]]))
  {
    var due, le := DueIds(commands, agent, now), ByUrgency(commands);
    DueIdsAre(commands, agent, now);
    UrgencyIsOrder(commands);
    Sorting.SortIsSorted(due, le);
    Sorting.SortIsPermutation(due, le);
    Sorting.SortKeepsMembers(due, le);
    var ids := Claimed(commands, agent, now);
    forall i, j | 0 <= i < j < |ids|
      ensures ids[i] != ids[j]
    {
      CountOnce(due, ids, i, j);
    }
    assert forall i :: 0 <= i < |ids| ==> ids[i] in ids;
  }

  lemma CountOnce(due: seq<nat>, ids: seq<nat>, i: nat, j: nat)
    requires forall a, b :: 0 <= a < b < |due| ==> due[a] != due[b]
    requires multiset(ids) == multiset(due) && i < j < |ids|
    ensures ids[i] != ids[j]
  {
    AtMostOnce(due, ids[i]);
    assert ids == ids[..j] + ids[j..];
    assert ids[i] in ids[..j] && ids[j] in ids[j..];
    assert multiset(ids)[ids[i]] == multiset(ids[..j])[ids[i]] + multiset(ids[j..])[ids[i]];
  }

  lemma {:induction false} AtMostOnce(due: seq<nat>, id: nat)
    requires forall a, b :: 0 <= a < b < |due| ==> due[a] != due[b]
    ensures multiset(due)[id] <= 1
  {
    if due != [] {
      AtMostOnce(due[1..], id);
      assert due == [due[0]] + due[1..];
      assert due[0] !in due[1..];
      assert due[0] !in multiset(due[1..]);
    }
  }

  /** What a response carries is sent from then on, and nothing else of any row moves. */
  lemma ClaimingSends(commands: CommandTable, agent: nat, now: Time, id: nat)
    requires id < |commands|
    ensures var (after, ids) := (AfterClaim(commands, agent, now), Claimed(commands, agent, now));
            && |after| == |commands|
            && after[id] == if id in ids then commands[id].(status := "sent") else commands[id]
  {
    ResponseIsExact(commands, agent, now);
  }

  // ---- runs ----

  datatype Event =
    | Enqueue(command: Command)
    | Beat(agent: nat, acks: seq<Ack>, now: Time)

  /** A heartbeat applies its acknowledgements before it claims. */
  function Step(commands: CommandTable, e: Event): (CommandTable, seq<nat>) {
    match e
    case Enqueue(c) => (commands + [c], [])
    case Beat(agent, acks, now) =>
      var acked := AfterAcks(commands, acks);
      (AfterClaim(acked, agent, now), Claimed(acked, agent, now))
  }

  /** The responses of a run, one per event. */
  function Responses(commands: CommandTable, events: seq<Event>): (out: seq<seq<nat>>)
    ensures |out| == |events|
    decreases |events|
  {
    if events == [] then []
    else
      var (next, ids) := Step(commands, events[0]);
      [ids] + Responses(next, events[1..])
  }

  /** No acknowledgement sets a command back to pending. */
  predicate NoPendingAcks(events: seq<Event>) {
    forall k :: 0 <= k < |events| && events[k].Beat? ==> forall a :: a in events[k].acks ==> a.status != Some("pending")
  }

  /** A command that is not pending. */
  predicate Settled(commands: CommandTable, id: nat) {
    id < |commands| && commands[id].status != PENDING
  }

  lemma {:induction false} AcksKeepSettled(commands: CommandTable, acks: seq<Ack>, id: nat)
    requires Settled(commands, id)
    requires forall a :: a in acks ==> a.status != Some(PENDING)
    ensures Settled(AfterAcks(commands, acks), id)
  {
    if acks != [] {
      AcksKeepSettled(commands, acks[..|acks| - 1], id);
    }
  }

  lemma StepSettles(commands: CommandTable, e: Event, id: nat)
    requires e.Beat? ==> forall a :: a in e.acks ==> a.status != Some(PENDING)
    ensures Settled(commands, id) ==> id !in Step(commands, e).1 && Settled(Step(commands, e).0, id)
    ensures id in Step(commands, e).1 ==> Settled(Step(commands, e).0, id)
  {
    if e.Beat? {
      var acked := AfterAcks(commands, e.acks);
      ResponseIsExact(acked, e.agent, e.now);
      if Settled(commands, id) {
        AcksKeepSettled(commands, e.acks, id);
      }
    }
  }

  lemma {:induction false} SettledIsNeverSent(commands: CommandTable, events: seq<Event>, id: nat, k: nat)
    requires NoPendingAcks(events) && Settled(commands, id) && k < |events|
    ensures id !in Responses(commands, events)[k]
    decreases |events|
  {
    StepSettles(commands, events[0], id);
    if k > 0 {
      forall m | 0 <= m < |events[1..]| && events[1..][m].Beat?
        ensures forall a :: a in events[1..][m].acks ==> a.status != Some(PENDING)
      {
        assert events[1..][m] == events[m + 1];
      }
      SettledIsNeverSent(Step(commands, events[0]).0, events[1..], id, k - 1);
    }
  }

  /** As long as no acknowledgement says pending, no command appears in two responses of a run. */
  lemma {:induction false} SentAtMostOnce(commands: CommandTable, events: seq<Event>, id: nat, j: nat, k: nat)
    requires NoPendingAcks(events) && j < k < |events|
    requires id in Responses(commands, events)[j]
    ensures id !in Responses(commands, events)[k]
    decreases |events|
  {
    var next := Step(commands, events[0]).0;
    StepSettles(commands, events[0], id);
    forall m | 0 <= m < |events[1..]| && events[1..][m].Beat?
      ensures forall a :: a in events[1..][m].acks ==> a.status != Some(PENDING)
    {
      assert events[1..][m] == events[m + 1];
    }
    if j == 0 {
      SettledIsNeverSent(next, events[1..], id, k - 1);
    } else {
      SentAtMostOnce(next, events[1..], id, j - 1, k - 1);
    }
  }

  // ---- exactly when a command goes out again ----

  /** The table before event `k`. */
  function TableAt(commands: CommandTable, events: seq<Event>, k: nat): CommandTable
    requires k <= |events|
    decreases k
  {
    if k == 0 then commands else TableAt(Step(commands, events[0]).0, events[1..], k - 1)
  }

  lemma {:induction false} TableStep(commands: CommandTable, events: seq<Event>, k: nat)
    requires k < |events|
    ensures TableAt(commands, events, k + 1) == Step(TableAt(commands, events, k), events[k]).0
    ensures Responses(commands, events)[k] == Step(TableAt(commands, events, k), events[k]).1
    decreases k
  {
    var next := Step(commands, events[0]).0;
    if k == 0 {
      assert TableAt(next, events[1..], 0) == next;
    } else {
      TableStep(next, events[1..], k - 1);
    }
  }

  /** The last event before `k` whose response carries the command. */
  function LastSending(responses: seq<seq<nat>>, id: nat, k: nat): (last: Option<nat>)
    requires k <= |responses|
    ensures last.Some? ==> last.value < k && id in responses[last.value]
                           && forall i :: last.value < i < k ==> id !in responses[i]
    ensures last.None? ==> forall i :: 0 <= i < k ==> id !in responses[i]
  {
    if k == 0 then None else if id in responses[k - 1] then Some(k - 1) else LastSending(responses, id, k - 1)
  }

  /** What the last acknowledgement that names the command says. */
  function LastWord(acks: seq<Ack>, id: nat): Option<string> {
    var n := |acks|;
    if n == 0 then None
    else if acks[n - 1].command == Some(id)
      then Some(if acks[n - 1].status.Some? then acks[n - 1].status.value else "completed")
    else LastWord(acks[..n - 1], id)
  }

  /** What the heartbeats after event `m`, up to and including event `k`, say last about the command. */
  function WordSince(events: seq<Event>, id: nat, m: nat, k: nat): Option<string>
    requires k < |events|
  {
    if k <= m then None
    else if events[k].Beat? && LastWord(events[k].acks, id).Some? then LastWord(events[k].acks, id)
    else WordSince(events, id, m, k - 1)
  }

  function Told(c: Command, word: Option<string>): Command {
    if word.Some? then c.(status := word.value) else c
  }

  lemma {:induction false} AcksTell(commands: CommandTable, acks: seq<Ack>, id: nat)
    requires id < |commands|
    ensures |AfterAcks(commands, acks)| == |commands|
    ensures AfterAcks(commands, acks)[id] == Told(commands[id], LastWord(acks, id))
  {
    if acks != [] {
      AcksTell(commands, acks[..|acks| - 1], id);
    }
  }

  /** One event, seen from one command. */
  lemma {:induction false} StepTells(commands: CommandTable, e: Event, id: nat)
    requires id < |commands|
    ensures var (after, ids) := Step(commands, e);
            var told := Told(commands[id], if e.Beat? then LastWord(e.acks, id) else None);
            && id < |after|
            && (id in ids <==> e.Beat? && IsDue(told, e.agent, e.now))
            && after[id] == if id in ids then told.(status := SENT) else told
  {
    if e.Beat? {
      AcksTell(commands, e.acks, id);
      ResponseIsExact(AfterAcks(commands, e.acks), e.agent, e.now);
    }
  }

  /** Between two sendings a command's row holds what was said last about it. */
  lemma {:induction false} RowSince(commands: CommandTable, events: seq<Event>, id: nat, m: nat, n: nat)
    requires m <= n < |events| && id in Responses(commands, events)[m]
    requires forall i :: m < i <= n ==> id !in Responses(commands, events)[i]
    ensures id < |TableAt(commands, events, m + 1)| && id < |TableAt(commands, events, n + 1)|
    ensures TableAt(commands, events, m + 1)[id].status == SENT
    ensures TableAt(commands, events, n + 1)[id]
         == Told(TableAt(commands, events, m + 1)[id], WordSince(events, id, m, n))
    decreases n
  {
    TableStep(commands, events, n);
    if n == m {
      SentIsInTable(TableAt(commands, events, m), events[m], id);
    } else {
      RowSince(commands, events, id, m, n - 1);
      StepTells(TableAt(commands, events, n), events[n], id);
    }
  }

  lemma SentIsInTable(commands: CommandTable, e: Event, id: nat)
    requires id in Step(commands, e).1
    ensures id < |Step(commands, e).0| && Step(commands, e).0[id].status == SENT
  {
    var acked := AfterAcks(commands, e.acks);
    ResponseIsExact(acked, e.agent, e.now);
  }

  /**
   When a command that was sent goes out again: exactly if the last acknowledgement since its
   latest sending says pending, and the heartbeat is its agent's and comes before it expires.
   */
  lemma {:induction false} ResentExactlyWhen(commands: CommandTable, events: seq<Event>, id: nat, j: nat, k: nat)
    requires j < k < |events| && id in Responses(commands, events)[j]
    ensures LastSending(Responses(commands, events), id, k).Some?
    ensures var last := LastSending(Responses(commands, events), id, k).value;
            && j <= last < k && id < |TableAt(commands, events, last + 1)|
            && (id in Responses(commands, events)[k]
                <==> && events[k].Beat?
                     && WordSince(events, id, last, k) == Some("pending")
                     && IsWaiting(TableAt(commands, events, last + 1)[id].(status := "pending"),
                                  events[k].agent, events[k].now))
  {
    var last := LastSending(Responses(commands, events), id, k).value;
    RowSince(commands, events, id, last, k - 1);
    TableStep(commands, events, k);
    StepTells(TableAt(commands, events, k), events[k], id);
  }
}
