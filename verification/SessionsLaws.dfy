/** Safety of refresh-token rotation over every run of session operations. */
module SessionsLaws {
  import opened Common
  import opened Clock
  import opened Sessions

  datatype Action =
    | Create(userId: nat, uuid: string, ttlDays: nat)
    | Refreshing(token: string)
    | Revoke(session: nat)
    | RevokeOthers(userId: nat, exceptUuid: string)

  /** An operation, when it runs, and the token it would generate. */
  datatype Event = Event(action: Action, generated: Fresh, now: Time)

  function Step(st: Tables, e: Event): (Tables, Output) {
    match e.action
    case Create(userId, uuid, ttlDays) =>
      (st.(sessions := st.sessions + [NewSession(userId, uuid, ttlDays, e.generated, e.now)]),
       Created(|st.sessions|, e.generated.Text()))
    case Refreshing(token) => Refresh(st, token, e.generated, e.now)
    case Revoke(i) =>
      if i < |st.sessions| then
        (st.(sessions := st.sessions[i := st.sessions[i].(revokedAt := Some(StampOf(e.now)))]), Done)
      else (st, Done)
    case RevokeOthers(userId, exceptUuid) =>
      (st.(sessions := RevokedOthers(st.sessions, userId, exceptUuid, e.now)), Done)
  }

  function Run(st: Tables, events: seq<Event>): (result: (Tables, seq<Output>))
    ensures |result.1| == |events|
    decreases |events|
  {
    if events == [] then (st, [])
    else
      var (next, out) := Step(st, events[0]);
      var (last, outs) := Run(next, events[1..]);
      (last, [out] + outs)
  }

  predicate InUse(st: Tables, id: string) {
    || (exists i :: 0 <= i < |st.sessions| && st.sessions[i].tokenId == id)
    || (exists a :: 0 <= a < |st.rotations| && st.rotations[a].tokenId == id)
  }

  /** Every generated id is dot-free and new at its turn. */
  predicate FreshRun(st: Tables, events: seq<Event>)
    decreases |events|
  {
    events == []
    || (&& '.' !in events[0].generated.id
        && !InUse(st, events[0].generated.id)
        && FreshRun(Step(st, events[0]).0, events[1..]))
  }

  /** Times never go back, and none is before `from`. */
  predicate InOrder(from: Time, events: seq<Event>)
    decreases |events|
  {
    events == [] || (from <= events[0].now && InOrder(events[0].now, events[1..]))
  }

  // ---- the rotation log of one session ----

  function LogOf(rotations: seq<Rotation>, i: nat): seq<Rotation> {
    var n := |rotations|;
    if n == 0 then []
    else LogOf(rotations[..n - 1], i) + if rotations[n - 1].session == i then [rotations[n - 1]] else []
  }

  function Texts(log: seq<Rotation>): seq<string> {
    var n := |log|;
    if n == 0 then [] else Texts(log[..n - 1]) + [BuildRefreshToken(log[n - 1].tokenId, log[n - 1].tokenHash.secret)]
  }

  function CurrentText(s: Session): string {
    BuildRefreshToken(s.tokenId, s.tokenHash.secret)
  }

  /** The tokens a session's rows stand for: the logged ones, then the current one. */
  function History(st: Tables, i: nat): seq<string> {
    if i < |st.sessions| then Texts(LogOf(st.rotations, i)) + [CurrentText(st.sessions[i])] else []
  }

  lemma {:induction false} LogGrows(rotations: seq<Rotation>, r: Rotation, i: nat)
    ensures LogOf(rotations + [r], i) == LogOf(rotations, i) + if r.session == i then [r] else []
  {
    assert (rotations + [r])[..|rotations|] == rotations;
  }

  lemma {:induction false} TextsGrow(log: seq<Rotation>, r: Rotation)
    ensures Texts(log + [r]) == Texts(log) + [BuildRefreshToken(r.tokenId, r.tokenHash.secret)]
  {
    assert (log + [r])[..|log|] == log;
  }

  lemma {:induction false} LogMembers(rotations: seq<Rotation>, i: nat)
    ensures forall r :: r in LogOf(rotations, i) ==> r in rotations && r.session == i
  {
    if rotations != [] {
      LogMembers(rotations[..|rotations| - 1], i);
    }
  }

  // ---- the invariant ----

  /** `previous_*` repeats the last logged rotation. */
  predicate PreviousIsLastLogged(st: Tables, i: nat)
    requires i < |st.sessions|
  {
    var log, s := LogOf(st.rotations, i), st.sessions[i];
    if log == [] then s.previousId == None && s.previousHash == None
    else s.previousId == Some(log[|log| - 1].tokenId) && s.previousHash == Some(log[|log| - 1].tokenHash)
  }

  /** Every id stored, current or former, is stored for one session and once. */
  ghost predicate IdsDistinct(st: Tables) {
    && (forall i, j :: 0 <= i < j < |st.sessions| ==> st.sessions[i].tokenId != st.sessions[j].tokenId)
    && (forall a, b :: 0 <= a < b < |st.rotations| ==> st.rotations[a].tokenId != st.rotations[b].tokenId)
    && (forall a, i :: 0 <= a < |st.rotations| && 0 <= i < |st.sessions|
          ==> st.rotations[a].tokenId != st.sessions[i].tokenId)
  }

  ghost predicate Inv(st: Tables) {
    && IdsDistinct(st)
    && (forall i :: 0 <= i < |st.sessions| ==> '.' !in st.sessions[i].tokenId)
    && (forall a :: 0 <= a < |st.rotations|
          ==> '.' !in st.rotations[a].tokenId && st.rotations[a].session < |st.sessions|)
    && (forall i :: 0 <= i < |st.sessions| ==> PreviousIsLastLogged(st, i))
  }

  /** Changing only the dates of a row keeps the invariant and every history. */
  ghost predicate SameTokens(s: Session, t: Session) {
    t == s.(revokedAt := t.revokedAt, compromisedAt := t.compromisedAt)
  }

  lemma DatesOnly(st: Tables, after: Tables)
    requires Inv(st) && after.rotations == st.rotations && |after.sessions| == |st.sessions|
    requires forall i :: 0 <= i < |st.sessions| ==> SameTokens(st.sessions[i], after.sessions[i])
    ensures Inv(after)
    ensures forall j: nat :: History(after, j) == History(st, j)
  {
    forall i | 0 <= i < |after.sessions|
      ensures PreviousIsLastLogged(after, i)
    {
      assert PreviousIsLastLogged(st, i);
    }
  }

  lemma {:induction false} RotationLog(st: Tables, i: nat, generated: Fresh, now: Time, j: nat)
    requires i < |st.sessions|
    ensures LogOf(AfterRotation(st, i, generated, now).rotations, j)
         == LogOf(st.rotations, j)
            + if j == i then [Rotation(i, st.sessions[i].tokenId, st.sessions[i].tokenHash, StampOf(now))] else []
  {
    LogGrows(st.rotations, Rotation(i, st.sessions[i].tokenId, st.sessions[i].tokenHash, StampOf(now)), j);
  }

  lemma RotationHistory(st: Tables, i: nat, generated: Fresh, now: Time, j: nat)
    requires i < |st.sessions|
    ensures History(AfterRotation(st, i, generated, now), j)
         == History(st, j) + if j == i then [generated.Text()] else []
  {
    var after, log := AfterRotation(st, i, generated, now), LogOf(st.rotations, j);
    RotationLog(st, i, generated, now, j);
    if j == i {
      var s := st.sessions[i];
      TextsGrow(log, Rotation(i, s.tokenId, s.tokenHash, StampOf(now)));
      assert CurrentText(after.sessions[i]) == generated.Text();
      assert History(after, i) == Texts(log) + [CurrentText(s)] + [generated.Text()];
    } else {
      assert LogOf(after.rotations, j) == log;
    }
  }

  lemma RotationKeepsIds(st: Tables, i: nat, generated: Fresh, now: Time)
    requires IdsDistinct(st) && i < |st.sessions| && !InUse(st, generated.id)
    ensures IdsDistinct(AfterRotation(st, i, generated, now))
  {
  }

  lemma RotationKeeps(st: Tables, i: nat, generated: Fresh, now: Time)
    requires Inv(st) && i < |st.sessions|
    requires '.' !in generated.id && !InUse(st, generated.id)
    ensures Inv(AfterRotation(st, i, generated, now))
  {
    var after := AfterRotation(st, i, generated, now);
    RotationKeepsIds(st, i, generated, now);
    forall j | 0 <= j < |after.sessions|
      ensures PreviousIsLastLogged(after, j)
    {
      RotationLog(st, i, generated, now, j);
      assert PreviousIsLastLogged(st, j);
    }
  }

  lemma {:induction false} NoLogYet(rotations: seq<Rotation>, n: nat)
    requires forall a :: 0 <= a < |rotations| ==> rotations[a].session < n
    ensures LogOf(rotations, n) == []
  {
    if rotations != [] {
      NoLogYet(rotations[..|rotations| - 1], n);
    }
  }

  lemma CreationKeeps(st: Tables, s: Session)
    requires Inv(st) && '.' !in s.tokenId && !InUse(st, s.tokenId)
    requires s.previousId == None && s.previousHash == None
    ensures Inv(st.(sessions := st.sessions + [s]))
    ensures forall j: nat :: History(st.(sessions := st.sessions + [s]), j)
                          == History(st, j) + if j == |st.sessions| then [CurrentText(s)] else []
  {
    var after := st.(sessions := st.sessions + [s]);
    NoLogYet(st.rotations, |st.sessions|);
    forall j | 0 <= j < |after.sessions|
      ensures PreviousIsLastLogged(after, j)
    {
      if j < |st.sessions| {
        assert PreviousIsLastLogged(st, j);
      }
    }
  }

  /** The token an output hands out for session `i`, if any. */
  function HandedTo(out: Output, i: nat): seq<string> {
    if (out.Created? || out.Refreshed?) && out.session == i then [out.token] else []
  }

  function IssuedTo(outs: seq<Output>, i: nat): seq<string> {
    if outs == [] then [] else HandedTo(outs[0], i) + IssuedTo(outs[1..], i)
  }

  lemma RefreshKeeps(st: Tables, token: string, generated: Fresh, now: Time)
    requires Inv(st) && '.' !in generated.id && !InUse(st, generated.id)
    ensures var (after, out) := Refresh(st, token, generated, now);
            Inv(after) && forall j: nat :: History(after, j) == History(st, j) + HandedTo(out, j)
  {
    var (after, out) := Refresh(st, token, generated, now);
    if out.Refreshed? {
      RotationKeeps(st, out.session, generated, now);
      forall j: nat
        ensures History(after, j) == History(st, j) + HandedTo(out, j)
      {
        RotationHistory(st, out.session, generated, now, j);
      }
    } else {
      DatesOnly(st, after);
    }
  }

  lemma RevocationKeeps(st: Tables, e: Event)
    requires Inv(st) && (e.action.Revoke? || e.action.RevokeOthers?)
    ensures var (after, out) := Step(st, e);
            Inv(after) && forall j: nat :: History(after, j) == History(st, j) + HandedTo(out, j)
  {
    DatesOnly(st, Step(st, e).0);
  }

  lemma StepKeeps(st: Tables, e: Event)
    requires Inv(st) && '.' !in e.generated.id && !InUse(st, e.generated.id)
    ensures Inv(Step(st, e).0)
    ensures forall j: nat :: History(Step(st, e).0, j) == History(st, j) + HandedTo(Step(st, e).1, j)
  {
    match e.action
    case Create(userId, uuid, ttlDays) =>
      CreationKeeps(st, NewSession(userId, uuid, ttlDays, e.generated, e.now));
    case Refreshing(token) => RefreshKeeps(st, token, e.generated, e.now);
    case _ => RevocationKeeps(st, e);
  }

  /**
   In every run with fresh ids, a session's log and current token are
   exactly the tokens handed out for it, in order.
   */
  lemma {:induction false} LogIsIssueHistory(st: Tables, events: seq<Event>)
    requires Inv(st) && FreshRun(st, events)
    ensures Inv(Run(st, events).0)
    ensures forall i: nat :: History(Run(st, events).0, i) == History(st, i) + IssuedTo(Run(st, events).1, i)
    decreases |events|
  {
    if events != [] {
      StepKeeps(st, events[0]);
      LogIsIssueHistory(Step(st, events[0]).0, events[1..]);
    }
  }

  /** From empty tables: rows and outputs tell the same story, and no id is stored twice. */
  lemma {:induction false} FromEmptyTables(events: seq<Event>)
    requires FreshRun(Tables([], []), events)
    ensures var (st, outs) := Run(Tables([], []), events);
            && IdsDistinct(st)
            && (forall i: nat :: i < |st.sessions| ==> PreviousIsLastLogged(st, i))
            && (forall i: nat :: i < |st.sessions|
                  ==> Texts(LogOf(st.rotations, i)) + [CurrentText(st.sessions[i])] == IssuedTo(outs, i))
  {
    LogIsIssueHistory(Tables([], []), events);
    var (st, outs) := Run(Tables([], []), events);
    forall i: nat | i < |st.sessions|
      ensures Texts(LogOf(st.rotations, i)) + [CurrentText(st.sessions[i])] == IssuedTo(outs, i)
    {
      assert History(st, i) == History(Tables([], []), i) + IssuedTo(outs, i);
    }
  }

  // ---- which tokens can succeed ----

  predicate IsPreviousText(s: Session, token: string) {
    s.previousId.Some? && s.previousHash.Some?
      && token == BuildRefreshToken(s.previousId.value, s.previousHash.value.secret)
  }

  predicate InGraceWindow(s: Session, now: Time) {
    s.lastRefreshAt.Some? && now <= InstantOf(s.lastRefreshAt.value + GRACE_SECONDS)
  }

  lemma PreviousIdIsLogged(st: Tables, i: nat)
    requires Inv(st) && i < |st.sessions| && st.sessions[i].previousId.Some?
    ensures exists a :: 0 <= a < |st.rotations|
              && st.rotations[a].tokenId == st.sessions[i].previousId.value && st.rotations[a].session == i
  {
    assert PreviousIsLastLogged(st, i);
    var log := LogOf(st.rotations, i);
    LogMembers(st.rotations, i);
    assert log[|log| - 1] in log;
  }

  /** The two lookups find the session a stored id belongs to. */
  lemma {:induction false} LookupsAgree(st: Tables, i: nat, id: string)
    requires Inv(st) && i < |st.sessions|
    ensures FindByTokenId(st.sessions, id) == Some(i) <==> st.sessions[i].tokenId == id
    ensures st.sessions[i].previousId == Some(id) ==>
              FindByTokenId(st.sessions, id) == None && FindByPreviousId(st.sessions, id) == Some(i)
    ensures FindByPreviousId(st.sessions, id) == Some(i) ==> st.sessions[i].previousId == Some(id)
  {
    if st.sessions[i].previousId == Some(id) {
      PreviousIdIsLogged(st, i);
      var j := FindByPreviousId(st.sessions, id);
      PreviousIdIsLogged(st, j.value);
    }
  }

  /** A token text names one id and secret when the id has no dot. */
  lemma {:induction false} ParsesTo(token: string, id: string, secret: string)
    requires '.' !in id
    ensures ParseRefreshToken(token) == Some(Parsed(id, secret)) <==> token == BuildRefreshToken(id, secret)
  {
    BuildThenParse(id, secret);
    ParsedTextIsRebuilt(token);
  }

  /**
   A refresh succeeds for a session exactly when the session is usable and the
   token is its current one, or its previous one inside the grace window.
   */
  lemma SucceedsExactlyWhen(st: Tables, i: nat, token: string, generated: Fresh, now: Time)
    requires Inv(st) && i < |st.sessions|
    ensures var out, s := Refresh(st, token, generated, now).1, st.sessions[i];
            (out.Refreshed? && out.session == i) <==>
            (s.Usable(now) && (token == CurrentText(s) || (IsPreviousText(s, token) && InGraceWindow(s, now))))
  {
    var s := st.sessions[i];
    ParsesTo(token, s.tokenId, s.tokenHash.secret);
    assert PreviousIsLastLogged(st, i);
    if s.previousId.Some? {
      PreviousIdIsLogged(st, i);
      ParsesTo(token, s.previousId.value, s.previousHash.value.secret);
    }
    if ParseRefreshToken(token).Some? {
      var p := ParseRefreshToken(token).value;
      LookupsAgree(st, i, p.id);
      assert Hash(p.secret) == s.tokenHash <==> p.secret == s.tokenHash.secret;
    }
  }

  lemma {:induction false} TextsAt(log: seq<Rotation>)
    ensures |Texts(log)| == |log|
    ensures log != [] ==>
              Texts(log)[|log| - 1] == BuildRefreshToken(log[|log| - 1].tokenId, log[|log| - 1].tokenHash.secret)
  {
    if log != [] {
      TextsAt(log[..|log| - 1]);
    }
  }

  /** Rotation round trip: a token that was handed out refreshes its session next, exactly while that is usable. */
  lemma HandedOutTokenWorks(st: Tables, e: Event, i: nat, generated: Fresh, later: Time)
    requires Inv(st) && '.' !in e.generated.id && !InUse(st, e.generated.id)
    requires HandedTo(Step(st, e).1, i) != []
    ensures var (after, out) := Step(st, e);
            && i < |after.sessions|
            && var token := HandedTo(out, i)[0];
               var again := Refresh(after, token, generated, later).1;
               (again.Refreshed? && again.session == i <==> after.sessions[i].Usable(later))
  {
    StepKeeps(st, e);
    var (after, out) := Step(st, e);
    var token := HandedTo(out, i)[0];
    HandedIsCurrent(st, e, i);
    SucceedsExactlyWhen(after, i, token, generated, later);
  }

  lemma HandedIsCurrent(st: Tables, e: Event, i: nat)
    requires Inv(st) && HandedTo(Step(st, e).1, i) != []
    ensures var (after, out) := Step(st, e);
            i < |after.sessions| && HandedTo(out, i)[0] == CurrentText(after.sessions[i])
  {
  }

  lemma NewSessionUsable(userId: nat, uuid: string, ttlDays: nat, generated: Fresh, now: Time, later: Time)
    ensures NewSession(userId, uuid, ttlDays, generated, now).Usable(later)
       <==> later <= InstantOf(StampOf(now)) + ttlDays * 86_400 * MICROS
  {
  }

  /** The token of a new session works exactly until its lifetime in days has passed, counted from the stored second. */
  lemma CreatedTokenLivesItsTtl(st: Tables, e: Event, generated: Fresh, later: Time)
    requires Inv(st) && '.' !in e.generated.id && !InUse(st, e.generated.id) && e.action.Create?
    ensures var (after, out) := Step(st, e);
            && out.Created?
            && (Refresh(after, out.token, generated, later).1.Refreshed?
                && Refresh(after, out.token, generated, later).1.session == out.session
                <==> later <= InstantOf(StampOf(e.now)) + e.action.ttlDays * 86_400 * MICROS)
  {
    var i := |st.sessions|;
    HandedOutTokenWorks(st, e, i, generated, later);
    assert Step(st, e).0.sessions[i]
           == NewSession(e.action.userId, e.action.uuid, e.action.ttlDays, e.generated, e.now);
    NewSessionUsable(e.action.userId, e.action.uuid, e.action.ttlDays, e.generated, e.now, later);
  }

  /** Of all tokens ever issued for a session, only the last two can make a refresh succeed. */
  lemma AtMostTwoTokensWork(st: Tables, i: nat, token: string, generated: Fresh, now: Time)
    requires Inv(st) && i < |st.sessions|
    requires var out := Refresh(st, token, generated, now).1; out.Refreshed? && out.session == i
    ensures var issued := History(st, i);
            || token == issued[|issued| - 1]
            || (|issued| >= 2 && token == issued[|issued| - 2] && InGraceWindow(st.sessions[i], now))
  {
    SucceedsExactlyWhen(st, i, token, generated, now);
    assert PreviousIsLastLogged(st, i);
    TextsAt(LogOf(st.rotations, i));
  }

  /** Presenting a session's previous id outside the grace conditions compromises it, whatever the secret. */
  lemma PreviousOutsideGraceCompromises(st: Tables, i: nat, secret: string, generated: Fresh, now: Time)
    requires Inv(st) && i < |st.sessions| && st.sessions[i].previousId.Some?
    ensures var token := BuildRefreshToken(st.sessions[i].previousId.value, secret);
            var (after, out) := Refresh(st, token, generated, now);
            if WithinGrace(st.sessions[i], secret, now) then out == Refreshed(i, generated.Text())
            else
              && out == Refused(ReuseDetected)
              && |after.sessions| == |st.sessions|
              && after.sessions[i].compromisedAt == Some(StampOf(now))
              && after.sessions[i].revokedAt == Some(StampOf(now))
  {
    var id := st.sessions[i].previousId.value;
    PreviousIdIsLogged(st, i);
    BuildThenParse(id, secret);
    LookupsAgree(st, i, id);
  }

  /**
   Reuse is only noticed for the token just before the current one: presenting
   any older token of the session is refused as unknown and changes nothing.
   */
  lemma OlderTokensGoUnnoticed(st: Tables, a: nat, secret: string, generated: Fresh, now: Time)
    requires Inv(st) && a < |st.rotations|
    requires st.sessions[st.rotations[a].session].previousId != Some(st.rotations[a].tokenId)
    ensures Refresh(st, BuildRefreshToken(st.rotations[a].tokenId, secret), generated, now) == (st, Refused(Unknown))
  {
    var id := st.rotations[a].tokenId;
    BuildThenParse(id, secret);
    var found := FindByPreviousId(st.sessions, id);
    if found.Some? {
      PreviousIdIsLogged(st, found.value);
    }
  }

  // ---- absorbing states and lifetime ----

  /** One step never revives a session, never moves its expiry, and never refreshes an unusable one. */
  lemma StepAbsorbs(st: Tables, e: Event, i: nat)
    requires i < |st.sessions|
    ensures var (after, out) := Step(st, e);
            && i < |after.sessions|
            && after.sessions[i].expiresAt == st.sessions[i].expiresAt
            && after.sessions[i].userId == st.sessions[i].userId
            && (st.sessions[i].revokedAt.Some? ==> after.sessions[i].revokedAt.Some?)
            && (st.sessions[i].compromisedAt.Some? ==> after.sessions[i].compromisedAt.Some?)
            && (out.Refreshed? && out.session == i ==> st.sessions[i].Usable(e.now))
  {
  }

  /** Once revoked, compromised or expired, no later sequence of operations refreshes the session. */
  lemma {:induction false} UnusableIsForever(st: Tables, i: nat, from: Time, events: seq<Event>)
    requires i < |st.sessions| && !st.sessions[i].Usable(from) && InOrder(from, events)
    ensures forall k :: 0 <= k < |events| ==>
              var out := Run(st, events).1[k]; !(out.Refreshed? && out.session == i)
    decreases |events|
  {
    if events != [] {
      var (next, out) := Step(st, events[0]);
      StepAbsorbs(st, events[0], i);
      UnusableIsForever(next, i, events[0].now, events[1..]);
    }
  }

  /** However many rotations happened, every success lies within the lifetime the session was created with. */
  lemma {:induction false} SuccessWithinLifetime(st: Tables, i: nat, events: seq<Event>, k: nat)
    requires i < |st.sessions| && k < |events|
    ensures i < |Run(st, events).0.sessions| && Run(st, events).0.sessions[i].expiresAt == st.sessions[i].expiresAt
    ensures var out, expiresAt := Run(st, events).1[k], st.sessions[i].expiresAt;
            out.Refreshed? && out.session == i && expiresAt.Some? ==> events[k].now <= InstantOf(expiresAt.value)
    decreases |events|
  {
    StepAbsorbs(st, events[0], i);
    var next := Step(st, events[0]).0;
    if k > 0 {
      SuccessWithinLifetime(next, i, events[1..], k - 1);
    } else if |events| > 1 {
      SuccessWithinLifetime(next, i, events[1..], 0);
    } else {
      assert events[1..] == [];
    }
  }

  /** Signing out everywhere else leaves no usable session of the user but the excepted one, which is untouched. */
  lemma RevokeOthersSilences(st: Tables, e: Event, i: nat)
    requires e.action.RevokeOthers? && i < |st.sessions|
    ensures var (before, after) := (st.sessions[i], Step(st, e).0.sessions[i]);
            if before.userId == e.action.userId && before.uuid != e.action.exceptUuid then !after.Usable(e.now)
            else after == before
  {
  }
}
