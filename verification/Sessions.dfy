/**
 User sessions and refresh-token rotation (`SessionManager`,
 `RefreshTokenRotationService`, the refresh-token half of `JwtService`).
 Rows of a table are numbered by their position; rows are never deleted.
 */
module Sessions {
  import opened Common
  import opened Clock

  // ---- token text ----

  /** The hash of a secret; distinct secrets have distinct hashes. */
  datatype Hash = Hash(secret: string)

  datatype Parsed = Parsed(id: string, secret: string)

  function BuildRefreshToken(id: string, secret: string): string {
    id + "." + secret
  }

  /** `explode('.', $token, 2)`: split at the first dot, if there is one. */
  function ParseRefreshToken(token: string): Option<Parsed> {
    if token == "" then None
    else if token[0] == '.' then Some(Parsed("", token[1..]))
    else
      match ParseRefreshToken(token[1..])
      case None => None
      case Some(rest) => Some(Parsed([token[0]] + rest.id, rest.secret))
  }

  lemma {:induction false} ParsedTextIsRebuilt(token: string)
    ensures ParseRefreshToken(token).None? <==> '.' !in token
    ensures ParseRefreshToken(token).Some? ==>
              var p := ParseRefreshToken(token).value;
              '.' !in p.id && BuildRefreshToken(p.id, p.secret) == token
  {
    if token != "" && token[0] != '.' {
      ParsedTextIsRebuilt(token[1..]);
      assert token == [token[0]] + token[1..];
    }
  }

  /** Building then parsing gives the parts back exactly when the id has no dot. */
  lemma {:induction false} BuildThenParse(id: string, secret: string)
    ensures ParseRefreshToken(BuildRefreshToken(id, secret)) == Some(Parsed(id, secret)) <==> '.' !in id
  {
    var token := BuildRefreshToken(id, secret);
    if id != "" && id[0] != '.' {
      assert token[1..] == BuildRefreshToken(id[1..], secret);
      BuildThenParse(id[1..], secret);
      assert id == [id[0]] + id[1..];
      ParsedTextIsRebuilt(token[1..]);
    }
  }

  // ---- rows ----

  datatype Session = Session(
    userId: nat,
    uuid: string,
    tokenId: string,
    tokenHash: Hash,
    previousId: Option<string>,
    previousHash: Option<Hash>,
    lastRefreshAt: Option<Stamp>,
    expiresAt: Option<Stamp>,
    revokedAt: Option<Stamp>,
    compromisedAt: Option<Stamp>)
  {
    predicate IsExpired(now: Time) {
      expiresAt.Some? && IsPast(expiresAt.value, now)
    }

    /** Neither compromised, revoked nor expired: the three checks that stand before a rotation. */
    predicate Usable(now: Time) {
      compromisedAt.None? && revokedAt.None? && !IsExpired(now)
    }
  }

  datatype Rotation = Rotation(session: nat, tokenId: string, tokenHash: Hash, rotatedAt: Stamp)

  datatype Tables = Tables(sessions: seq<Session>, rotations: seq<Rotation>)

  const GRACE_SECONDS: nat := 30
  const DAY: nat := 86_400 * MICROS

  datatype Reason =
    | BadFormat
    | Unknown
    | ReuseDetected
    | SecretMismatch
    | SessionCompromised
    | SessionRevoked
    | SessionExpired

  datatype Output =
    | Created(session: nat, token: string)
    | Refreshed(session: nat, token: string)
    | Refused(reason: Reason)
    | Done

  function FindByTokenId(sessions: seq<Session>, id: string): (found: Option<nat>)
    ensures found.Some? ==> found.value < |sessions| && sessions[found.value].tokenId == id
    ensures found.None? ==> forall i :: 0 <= i < |sessions| ==> sessions[i].tokenId != id
  {
    if sessions == [] then None
    else if sessions[0].tokenId == id then Some(0)
    else
      match FindByTokenId(sessions[1..], id)
      case None => None
      case Some(i) => Some(i + 1)
  }

  function FindByPreviousId(sessions: seq<Session>, id: string): (found: Option<nat>)
    ensures found.Some? ==> found.value < |sessions| && sessions[found.value].previousId == Some(id)
    ensures found.None? ==> forall i :: 0 <= i < |sessions| ==> sessions[i].previousId != Some(id)
  {
    if sessions == [] then None
    else if sessions[0].previousId == Some(id) then Some(0)
    else
      match FindByPreviousId(sessions[1..], id)
      case None => None
      case Some(i) => Some(i + 1)
  }

  // ---- what each operation does to the tables ----

  /** A freshly generated token: its id and its secret. */
  datatype Fresh = Fresh(id: string, secret: string) {
    function Text(): string {
      BuildRefreshToken(id, secret)
    }
  }

  function NewSession(userId: nat, uuid: string, ttlDays: nat, fresh': Fresh, now: Time): Session {
    Session(userId, uuid, fresh'.id, Hash(fresh'.secret), None, None,
            Some(StampOf(now)), Some(StampOf(now + ttlDays * DAY)), None, None)
  }

  function Rotated(session: Session, fresh': Fresh, now: Time): Session {
    session.(previousId := Some(session.tokenId), previousHash := Some(session.tokenHash),
             tokenId := fresh'.id, tokenHash := Hash(fresh'.secret), lastRefreshAt := Some(StampOf(now)))
  }

  function AfterRotation(st: Tables, i: nat, fresh': Fresh, now: Time): Tables
    requires i < |st.sessions|
  {
    var s := st.sessions[i];
    Tables(st.sessions[i := Rotated(s, fresh', now)],
          st.rotations + [Rotation(i, s.tokenId, s.tokenHash, StampOf(now))])
  }

  function AfterCompromise(st: Tables, i: nat, now: Time): Tables
    requires i < |st.sessions|
  {
    st.(sessions := st.sessions[
          i := st.sessions[i].(compromisedAt := Some(StampOf(now)), revokedAt := Some(StampOf(now)))])
  }

  /** The previous token still works: right secret, soon after the last refresh, session usable. */
  predicate WithinGrace(s: Session, secret: string, now: Time) {
    && s.previousHash == Some(Hash(secret))
    && s.lastRefreshAt.Some?
    && now <= InstantOf(s.lastRefreshAt.value + GRACE_SECONDS)
    && s.Usable(now)
  }

  function Verdict(s: Session, secret: string, now: Time): Option<Reason> {
    if s.tokenHash != Hash(secret) then Some(SecretMismatch)
    else if s.compromisedAt.Some? then Some(SessionCompromised)
    else if s.revokedAt.Some? then Some(SessionRevoked)
    else if s.IsExpired(now) then Some(SessionExpired)
    else None
  }

  function Refresh(st: Tables, token: string, fresh': Fresh, now: Time): (Tables, Output) {
    match ParseRefreshToken(token)
    case None => (st, Refused(BadFormat))
    case Some(p) =>
      match FindByTokenId(st.sessions, p.id)
      case Some(i) =>
        (match Verdict(st.sessions[i], p.secret, now)
         case Some(reason) => (st, Refused(reason))
         case None => (AfterRotation(st, i, fresh', now), Refreshed(i, fresh'.Text())))
      case None =>
        match FindByPreviousId(st.sessions, p.id)
        case None => (st, Refused(Unknown))
        case Some(i) =>
          if WithinGrace(st.sessions[i], p.secret, now) then
            (AfterRotation(st, i, fresh', now), Refreshed(i, fresh'.Text()))
          else (AfterCompromise(st, i, now), Refused(ReuseDetected))
  }

  /** A session the bulk revocation selects. */
  predicate IsOtherLive(s: Session, userId: nat, exceptUuid: string) {
    s.userId == userId && s.uuid != exceptUuid && s.revokedAt.None? && s.compromisedAt.None?
  }

  function RevokedOthers(sessions: seq<Session>, userId: nat, exceptUuid: string, now: Time): seq<Session> {
    seq(|sessions|, i requires 0 <= i < |sessions| =>
      if IsOtherLive(sessions[i], userId, exceptUuid) then sessions[i].(revokedAt := Some(StampOf(now)))
      else sessions[i])
  }

  function CountOthers(sessions: seq<Session>, userId: nat, exceptUuid: string): nat {
    if sessions == [] then 0
    else
      var n := |sessions|;
      CountOthers(sessions[..n - 1], userId, exceptUuid)
      + if IsOtherLive(sessions[n - 1], userId, exceptUuid) then 1 else 0
  }

  // ---- the services ----

  class SessionManager {
    var sessions: seq<Session>
    var rotations: seq<Rotation>

    function Snapshot(): Tables
      reads this
    {
      Tables(sessions, rotations)
    }

    constructor ()
      ensures Snapshot() == Tables([], [])
    {
      sessions, rotations := [], [];
    }

    method CreateSession(userId: nat, uuid: string, ttlDays: nat, fresh': Fresh, now: Time) returns (out: Output)
      modifies this
      ensures Snapshot() == old(Snapshot()).(
                sessions := old(sessions) + [NewSession(userId, uuid, ttlDays, fresh', now)])
      ensures out == Created(old(|sessions|), fresh'.Text())
    {
      var session := Session(userId, uuid, fresh'.id, Hash(fresh'.secret), None, None,
                             Some(StampOf(now)), Some(StampOf(now + ttlDays * DAY)), None, None);
      sessions := sessions + [session];
      out := Created(|sessions| - 1, BuildRefreshToken(fresh'.id, fresh'.secret));
    }

    method RotateRefreshToken(i: nat, fresh': Fresh, now: Time) returns (token: string)
      requires i < |sessions|
      modifies this
      ensures Snapshot() == AfterRotation(old(Snapshot()), i, fresh', now)
      ensures token == fresh'.Text()
    {
      var oldTokenId, oldTokenHash := sessions[i].tokenId, sessions[i].tokenHash;
      sessions := sessions[i := sessions[i].(
        previousId := Some(oldTokenId), previousHash := Some(oldTokenHash),
        tokenId := fresh'.id, tokenHash := Hash(fresh'.secret),
        lastRefreshAt := Some(StampOf(now)))];
      rotations := rotations + [Rotation(i, oldTokenId, oldTokenHash, StampOf(now))];
      token := BuildRefreshToken(fresh'.id, fresh'.secret);
    }

    method RevokeSession(i: nat, now: Time)
      requires i < |sessions|
      modifies this
      ensures Snapshot() == old(Snapshot()).(
                sessions := old(sessions)[i := old(sessions)[i].(revokedAt := Some(StampOf(now)))])
    {
      sessions := sessions[i := sessions[i].(revokedAt := Some(StampOf(now)))];
    }

    method RevokeAllUserSessionsExcept(userId: nat, exceptUuid: string, now: Time) returns (count: nat)
      modifies this
      ensures Snapshot() == old(Snapshot()).(sessions := RevokedOthers(old(sessions), userId, exceptUuid, now))
      ensures count == CountOthers(old(sessions), userId, exceptUuid)
    {
      count := 0;
      var i := 0;
      while i < |sessions|
        invariant 0 <= i <= |sessions| == |old(sessions)| && rotations == old(rotations)
        invariant forall k :: 0 <= k < i ==> sessions[k] == RevokedOthers(old(sessions), userId, exceptUuid, now)[k]
        invariant forall k :: i <= k < |sessions| ==> sessions[k] == old(sessions)[k]
        invariant count == CountOthers(old(sessions)[..i], userId, exceptUuid)
      {
        assert old(sessions)[..i + 1][..i] == old(sessions)[..i];
        if IsOtherLive(sessions[i], userId, exceptUuid) {
          sessions := sessions[i := sessions[i].(revokedAt := Some(StampOf(now)))];
          count := count + 1;
        }
        i := i + 1;
      }
      assert old(sessions)[..i] == old(sessions);
    }

    method Compromise(i: nat, now: Time)
      requires i < |sessions|
      modifies this
      ensures Snapshot() == AfterCompromise(old(Snapshot()), i, now)
    {
      sessions := sessions[i := sessions[i].(compromisedAt := Some(StampOf(now)), revokedAt := Some(StampOf(now)))];
    }

    /** `RefreshTokenRotationService::validateAndRotate`. */
    method ValidateAndRotate(refreshToken: string, fresh': Fresh, now: Time) returns (out: Output)
      modifies this
      ensures (Snapshot(), out) == Refresh(old(Snapshot()), refreshToken, fresh', now)
    {
      var parsed := ParseRefreshToken(refreshToken);
      if parsed == None {
        return Refused(BadFormat);
      }
      var tokenId, tokenSecret := parsed.value.id, parsed.value.secret;
      var found := FindByTokenId(sessions, tokenId);
      if found == None {
        var previous := FindByPreviousId(sessions, tokenId);
        if previous.Some? {
          var session := sessions[previous.value];
          var matchesPreviousSecret := session.previousHash.Some? && session.previousHash.value == Hash(tokenSecret);
          var isWithinGracePeriod :=
            && matchesPreviousSecret
            && session.lastRefreshAt.Some?
            && now <= InstantOf(session.lastRefreshAt.value) + GRACE_SECONDS * MICROS
            && session.compromisedAt.None?
            && session.revokedAt.None?
            && !session.IsExpired(now);
          if isWithinGracePeriod {
            var token := RotateRefreshToken(previous.value, fresh', now);
            return Refreshed(previous.value, token);
          }
          Compromise(previous.value, now);
          return Refused(ReuseDetected);
        }
        return Refused(Unknown);
      }
      var session := sessions[found.value];
      if session.tokenHash != Hash(tokenSecret) {
        return Refused(SecretMismatch);
      }
      if session.compromisedAt.Some? {
        return Refused(SessionCompromised);
      }
      if session.revokedAt.Some? {
        return Refused(SessionRevoked);
      }
      if session.IsExpired(now) {
        return Refused(SessionExpired);
      }
      var token := RotateRefreshToken(found.value, fresh', now);
      return Refreshed(found.value, token);
    }
  }
}
