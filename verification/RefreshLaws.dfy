/** The dates and the answers of refresh tokens: when a session was refreshed last, and what a token is told. */
module RefreshLaws {
  import opened Common
  import opened Clock
  import opened Sessions
  import opened SessionsLaws

  // ---- when a session was refreshed ----

  /** The seconds in which tokens were handed out for session `i`, at its creation and at every refresh. */
  function HandedStamps(events: seq<Event>, outs: seq<Output>, i: nat): seq<Stamp>
    requires |outs| == |events|
  {
    if events == [] then []
    else (if HandedTo(outs[0], i) != [] then [StampOf(events[0].now)] else []) + HandedStamps(events[1..], outs[1..], i)
  }

  /** The seconds of its refreshes alone. */
  function RefreshedStamps(events: seq<Event>, outs: seq<Output>, i: nat): seq<Stamp>
    requires |outs| == |events|
  {
    if events == [] then []
    else
      (if outs[0].Refreshed? && outs[0].session == i then [StampOf(events[0].now)] else [])
      + RefreshedStamps(events[1..], outs[1..], i)
  }

  function RotatedStamps(log: seq<Rotation>): seq<Stamp> {
    var n := |log|;
    if n == 0 then [] else RotatedStamps(log[..n - 1]) + [log[n - 1].rotatedAt]
  }

  lemma {:induction false} RotatedStampsGrow(log: seq<Rotation>, r: Rotation)
    ensures RotatedStamps(log + [r]) == RotatedStamps(log) + [r.rotatedAt]
  {
    assert (log + [r])[..|log|] == log;
  }

  function LastRefresh(st: Tables, i: nat): Option<Stamp> {
    if i < |st.sessions| then st.sessions[i].lastRefreshAt else None
  }

  /** One step: whoever is handed a token has been refreshed now, and no other session is. */
  lemma StepRefreshDate(st: Tables, e: Event, i: nat)
    ensures var (after, out) := Step(st, e);
            LastRefresh(after, i) == if HandedTo(out, i) != [] then Some(StampOf(e.now)) else LastRefresh(st, i)
  {
  }

  lemma {:induction false} StepRotationDate(st: Tables, e: Event, i: nat)
    ensures var (after, out) := Step(st, e);
            RotatedStamps(LogOf(after.rotations, i))
            == RotatedStamps(LogOf(st.rotations, i))
               + if out.Refreshed? && out.session == i then [StampOf(e.now)] else []
  {
    var (after, out) := Step(st, e);
    if out.Refreshed? {
      var j := out.session;
      RotationLog(st, j, e.generated, e.now, i);
      if i == j {
        RotatedStampsGrow(
          LogOf(st.rotations, i), Rotation(j, st.sessions[j].tokenId, st.sessions[j].tokenHash, StampOf(e.now)));
      } else {
        assert LogOf(after.rotations, i) == LogOf(st.rotations, i);
      }
    }
  }

  function LastOf<T>(s: seq<T>, otherwise: Option<T>): Option<T> {
    if s == [] then otherwise else Some(s[|s| - 1])
  }

  /** From any state: the last handing-out dates the session, and the log dates every refresh. */
  lemma {:induction false} DatesFollow(st: Tables, events: seq<Event>, i: nat)
    ensures var (after, outs) := Run(st, events);
            && LastRefresh(after, i) == LastOf(HandedStamps(events, outs, i), LastRefresh(st, i))
            && RotatedStamps(LogOf(after.rotations, i))
               == RotatedStamps(LogOf(st.rotations, i)) + RefreshedStamps(events, outs, i)
    decreases |events|
  {
    if events != [] {
      var (next, out) := Step(st, events[0]);
      StepRefreshDate(st, events[0], i);
      StepRotationDate(st, events[0], i);
      DatesFollow(next, events[1..], i);
      RunUnfolds(st, events);
      var rest := Run(next, events[1..]).1;
      LastOfTwo(if HandedTo(out, i) != [] then [StampOf(events[0].now)] else [], HandedStamps(events[1..], rest, i),
                LastRefresh(st, i));
      Regrouped(RotatedStamps(LogOf(st.rotations, i)),
                if out.Refreshed? && out.session == i then [StampOf(events[0].now)] else [],
                RefreshedStamps(events[1..], rest, i));
    }
  }

  lemma {:induction false} RunUnfolds(st: Tables, events: seq<Event>)
    requires events != []
    ensures var (next, out), (after, outs) := Step(st, events[0]), Run(st, events);
            outs[0] == out && outs[1..] == Run(next, events[1..]).1 && after == Run(next, events[1..]).0
  {
  }

  lemma LastOfTwo<T>(a: seq<T>, b: seq<T>, otherwise: Option<T>)
    ensures LastOf(a + b, otherwise) == LastOf(b, LastOf(a, otherwise))
  {
  }

  lemma Regrouped<T>(a: seq<T>, b: seq<T>, c: seq<T>)
    ensures a + b + c == a + (b + c)
  {
  }

  /**
   In every run from empty tables a session's `last_refresh_at` is the second in which a token was
   last handed out for it, at its creation or by a refresh, and its log holds the second of every refresh.
   */
  lemma {:induction false} LastRefreshExactly(events: seq<Event>, i: nat)
    requires i < |Run(Tables([], []), events).0.sessions|
    ensures var (after, outs) := Run(Tables([], []), events);
            && HandedStamps(events, outs, i) != []
            && after.sessions[i].lastRefreshAt
               == Some(HandedStamps(events, outs, i)[|HandedStamps(events, outs, i)| - 1])
            && RotatedStamps(LogOf(after.rotations, i)) == RefreshedStamps(events, outs, i)
  {
    DatesFollow(Tables([], []), events, i);
    EverySessionIsDated(Tables([], []), events, i);
  }

  lemma {:induction false} EverySessionIsDated(st: Tables, events: seq<Event>, i: nat)
    requires |st.sessions| <= i < |Run(st, events).0.sessions|
    ensures HandedStamps(events, Run(st, events).1, i) != []
    decreases |events|
  {
    var next := Step(st, events[0]).0;
    RunUnfolds(st, events);
    if |next.sessions| <= i {
      EverySessionIsDated(next, events[1..], i);
    }
  }

  // ---- presenting the replaced token once more ----

  /** A step that hands out nothing for a session leaves its tokens and their date. */
  lemma StepLeavesTokens(st: Tables, e: Event, i: nat)
    requires i < |st.sessions| && HandedTo(Step(st, e).1, i) == []
    ensures i < |Step(st, e).0.sessions| && SameTokens(st.sessions[i], Step(st, e).0.sessions[i])
  {
  }

  lemma {:induction false} RunLeavesTokens(st: Tables, events: seq<Event>, i: nat)
    requires i < |st.sessions| && IssuedTo(Run(st, events).1, i) == []
    ensures i < |Run(st, events).0.sessions| && SameTokens(st.sessions[i], Run(st, events).0.sessions[i])
    decreases |events|
  {
    if events != [] {
      var next := Step(st, events[0]).0;
      RunUnfolds(st, events);
      StepLeavesTokens(st, events[0], i);
      RunLeavesTokens(next, events[1..], i);
    }
  }

  /** The two tokens a session's row holds are different texts. */
  lemma PreviousIsNotCurrent(st: Tables, i: nat, token: string)
    requires Inv(st) && i < |st.sessions| && IsPreviousText(st.sessions[i], token)
    ensures token != CurrentText(st.sessions[i])
  {
    var s := st.sessions[i];
    PreviousIdIsLogged(st, i);
    assert PreviousIsLastLogged(st, i);
    ParsesTo(token, s.tokenId, s.tokenHash.secret);
    ParsesTo(token, s.previousId.value, s.previousHash.value.secret);
  }

  /**
   The retry: the token a refresh replaced succeeds once more, whatever has been done to other
   sessions and as long as nothing was handed out for this one, exactly while the session is
   usable and thirty seconds have not passed since the second of that refresh.
   */
  lemma {:induction false} ReplacedTokenWorksExactlyWhile(
    st: Tables, e: Event, i: nat, later: seq<Event>, generated: Fresh, now: Time)
    requires Inv(st) && FreshRun(st, [e] + later) && i < |st.sessions|
    requires Step(st, e).1.Refreshed? && Step(st, e).1.session == i
    requires IssuedTo(Run(Step(st, e).0, later).1, i) == []
    ensures var after, replaced := Run(Step(st, e).0, later).0, CurrentText(st.sessions[i]);
            && i < |after.sessions|
            && var again := Refresh(after, replaced, generated, now).1;
               (again.Refreshed? && again.session == i
                <==> after.sessions[i].Usable(now) && now <= InstantOf(StampOf(e.now)) + 30 * 1_000_000)
  {
    var next, replaced := Step(st, e).0, CurrentText(st.sessions[i]);
    assert ([e] + later)[1..] == later;
    StepKeeps(st, e);
    LogIsIssueHistory(next, later);
    RunLeavesTokens(next, later, i);
    var after := Run(next, later).0;
    assert IsPreviousText(after.sessions[i], replaced);
    PreviousIsNotCurrent(after, i, replaced);
    SucceedsExactlyWhen(after, i, replaced, generated, now);
    StepRefreshDate(st, e, i);
  }

  // ---- what else a token can be told ----

  /** Without a dot, or with an id no row knows, a token is refused and nothing happens. */
  lemma UnknownTokenAnswers(st: Tables, token: string, generated: Fresh, now: Time)
    ensures '.' !in token ==> Refresh(st, token, generated, now) == (st, Refused(BadFormat))
    ensures '.' in token
            && (forall i, secret :: 0 <= i < |st.sessions| ==>
                  token != BuildRefreshToken(st.sessions[i].tokenId, secret)
                  && (st.sessions[i].previousId.Some? ==>
                        token != BuildRefreshToken(st.sessions[i].previousId.value, secret))) ==>
              Refresh(st, token, generated, now) == (st, Refused(Unknown))
  {
    ParsedTextIsRebuilt(token);
  }

  /** A token with a session's current id: which of the four refusals it meets, or a refresh. */
  lemma CurrentIdAnswers(st: Tables, i: nat, secret: string, generated: Fresh, now: Time)
    requires Inv(st) && i < |st.sessions|
    ensures var s, (after, out) := st.sessions[i],
                                   Refresh(st, BuildRefreshToken(st.sessions[i].tokenId, secret), generated, now);
            && (out.Refused? ==> after == st)
            && out == if secret != s.tokenHash.secret then Refused(SecretMismatch)
                      else if s.compromisedAt != None then Refused(SessionCompromised)
                      else if s.revokedAt != None then Refused(SessionRevoked)
                      else if s.expiresAt != None && InstantOf(s.expiresAt.value) < now then Refused(SessionExpired)
                      else Refreshed(i, BuildRefreshToken(generated.id, generated.secret))
  {
    var id := st.sessions[i].tokenId;
    BuildThenParse(id, secret);
    LookupsAgree(st, i, id);
  }

  // ---- whose session it is ----

  function Creations(events: seq<Event>): seq<Event> {
    if events == [] then []
    else (if events[0].action.Create? then [events[0]] else []) + Creations(events[1..])
  }

  predicate IsRowOf(s: Session, e: Event) {
    && e.action.Create? && s.userId == e.action.userId && s.uuid == e.action.uuid
    && s.expiresAt == Some(StampOf(e.now) + e.action.ttlDays * 86_400)
  }

  lemma DaysInSeconds(now: Time, days: nat)
    ensures StampOf(now + days * DAY) == StampOf(now) + days * 86_400
  {
    assert now + days * DAY == now + (days * 86_400) * MICROS;
  }

  lemma StepAddsCreated(st: Tables, e: Event)
    ensures |Step(st, e).0.sessions| == |st.sessions| + if e.action.Create? then 1 else 0
  {
  }

  lemma StepOwners(st: Tables, e: Event, i: nat)
    requires i < |Step(st, e).0.sessions|
    ensures var after := Step(st, e).0;
            if i < |st.sessions| then
                 && after.sessions[i].userId == st.sessions[i].userId
                 && after.sessions[i].uuid == st.sessions[i].uuid
                 && after.sessions[i].expiresAt == st.sessions[i].expiresAt
               else IsRowOf(after.sessions[i], e)
  {
    StepAddsCreated(st, e);
    if e.action.Create? {
      DaysInSeconds(e.now, e.action.ttlDays);
    }
  }

  /** In every run a session stays its creator's, with the uuid and the expiry it was created with. */
  lemma {:induction false} SessionsAreCreations(st: Tables, events: seq<Event>, i: nat)
    requires i < |Run(st, events).0.sessions|
    ensures var after := Run(st, events).0;
            && |after.sessions| == |st.sessions| + |Creations(events)|
            && if i < |st.sessions| then
                 && after.sessions[i].userId == st.sessions[i].userId
                 && after.sessions[i].uuid == st.sessions[i].uuid
                 && after.sessions[i].expiresAt == st.sessions[i].expiresAt
               else IsRowOf(after.sessions[i], Creations(events)[i - |st.sessions|])
    decreases |events|
  {
    if events != [] {
      var next := Step(st, events[0]).0;
      RunUnfolds(st, events);
      SessionsAreCreations(next, events[1..], i);
      StepAddsCreated(st, events[0]);
      if i < |next.sessions| {
        StepOwners(st, events[0], i);
      }
    }
  }

  // ---- signing out everywhere else ----

  /** A live session of the user other than the excepted one. */
  predicate IsSignedOut(s: Session, userId: nat, exceptUuid: string) {
    s.userId == userId && s.uuid != exceptUuid && s.revokedAt == None && s.compromisedAt == None
  }

  lemma {:induction false} CountIsExact(sessions: seq<Session>, userId: nat, exceptUuid: string)
    ensures CountOthers(sessions, userId, exceptUuid)
         == |set i | 0 <= i < |sessions| && IsSignedOut(sessions[i], userId, exceptUuid)|
  {
    if sessions != [] {
      var n := |sessions| - 1;
      CountIsExact(sessions[..n], userId, exceptUuid);
      var front := set i | 0 <= i < n && IsSignedOut(sessions[..n][i], userId, exceptUuid);
      assert front == set i | 0 <= i < n && IsSignedOut(sessions[i], userId, exceptUuid);
      if IsSignedOut(sessions[n], userId, exceptUuid) {
        assert (set i | 0 <= i < |sessions| && IsSignedOut(sessions[i], userId, exceptUuid)) == front + {n};
      } else {
        assert (set i | 0 <= i < |sessions| && IsSignedOut(sessions[i], userId, exceptUuid)) == front;
      }
    }
  }

  /**
   Exactly the user's other live sessions get a revocation date, no other
   column or row moves, and the count is theirs.
   */
  lemma {:induction false} SignOutElsewhereExactly(sessions: seq<Session>, userId: nat, exceptUuid: string, now: Time)
    ensures var after := RevokedOthers(sessions, userId, exceptUuid, now);
            && |after| == |sessions|
            && (forall i :: 0 <= i < |sessions| ==>
                  after[i] == if IsSignedOut(sessions[i], userId, exceptUuid)
                              then sessions[i].(revokedAt := Some(StampOf(now))) else sessions[i])
    ensures CountOthers(sessions, userId, exceptUuid)
         == |set i | 0 <= i < |sessions| && IsSignedOut(sessions[i], userId, exceptUuid)|
  {
    CountIsExact(sessions, userId, exceptUuid);
  }
}
