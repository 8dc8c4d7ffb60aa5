/** What a heartbeat is answered: which servers the agent keeps, and which it is told to drop. */
module AnswerLaws {
  import opened Common
  import opened Clock
  import opened Schema
  import opened Database
  import opened Heartbeat
  import opened Effects
  import opened Fleet
  import opened MonitoringLaws
  import opened OnlineTimeLaws

  // ---- the text of a uuid ----

  predicate AllHex(s: string) {
    forall i :: 0 <= i < |s| ==> s[i] in "0123456789abcdefABCDEF"
  }

  /** Five groups of hexadecimal digits, 8-4-4-4-12, joined by hyphens. */
  ghost predicate FiveGroups(s: string, a: string, b: string, c: string, d: string, e: string) {
    && |a| == 8 && |b| == 4 && |c| == 4 && |d| == 4 && |e| == 12
    && AllHex(a) && AllHex(b) && AllHex(c) && AllHex(d) && AllHex(e)
    && s == a + "-" + b + "-" + c + "-" + d + "-" + e
  }

  lemma HexDigits(c: char)
    ensures IsHex(c) <==> c in "0123456789abcdefABCDEF"
  {
    var digits := "0123456789abcdefABCDEF";
    assert |digits| == 22;
    if IsHex(c) {
      var k := if '0' <= c <= '9' then c as int - '0' as int
               else if 'a' <= c <= 'f' then c as int - 'a' as int + 10
               else c as int - 'A' as int + 16;
      assert 0 <= k < 22 && digits[k] == c;
    }
  }

  lemma GroupsMakeUuid(s: string, a: string, b: string, c: string, d: string, e: string)
    requires FiveGroups(s, a, b, c, d, e)
    ensures IsUuid(s)
  {
    forall i | 0 <= i < 36
      ensures if i in {8, 13, 18, 23} then s[i] == '-' else IsHex(s[i])
    {
      HexDigits(s[i]);
    }
  }

  lemma UuidHasGroups(s: string)
    requires IsUuid(s)
    ensures FiveGroups(s, s[..8], s[9..13], s[14..18], s[19..23], s[24..])
  {
    HexStretch(s, 0, 8);
    HexStretch(s, 9, 13);
    HexStretch(s, 14, 18);
    HexStretch(s, 19, 23);
    HexStretch(s, 24, 36);
    assert s[..8] == s[0..8] && s[24..] == s[24..36];
    CutAtHyphens(s);
  }

  lemma HexStretch(s: string, lo: nat, hi: nat)
    requires IsUuid(s) && lo <= hi <= 36
    requires (hi <= 8 || 8 < lo) && (hi <= 13 || 13 < lo) && (hi <= 18 || 18 < lo) && (hi <= 23 || 23 < lo)
    ensures AllHex(s[lo..hi])
  {
    forall i | 0 <= i < hi - lo
      ensures s[lo..hi][i] in "0123456789abcdefABCDEF"
    {
      assert IsHex(s[lo + i]);
      HexDigits(s[lo + i]);
    }
  }

  lemma CutAtHyphens(s: string)
    requires |s| == 36 && s[8] == s[13] == s[18] == s[23] == '-'
    ensures s == s[..8] + "-" + s[9..13] + "-" + s[14..18] + "-" + s[19..23] + "-" + s[24..]
  {
    assert s == s[..8] + [s[8]] + s[9..];
    assert s[9..] == s[9..13] + [s[13]] + s[14..];
    assert s[14..] == s[14..18] + [s[18]] + s[19..];
    assert s[19..] == s[19..23] + [s[23]] + s[24..];
  }

  /** A listed text is taken for a uuid exactly when it is five groups of hexadecimal digits. */
  lemma UuidIsFiveGroups(s: string)
    ensures IsUuid(s) <==> exists a, b, c, d, e :: FiveGroups(s, a, b, c, d, e)
  {
    if IsUuid(s) {
      UuidHasGroups(s);
    }
    if a, b, c, d, e :| FiveGroups(s, a, b, c, d, e) {
      GroupsMakeUuid(s, a, b, c, d, e);
    }
  }

  // ---- the two answers ----

  /** A row of an active agent. */
  predicate IsActiveRow(agents: seq<Agent>, a: nat) {
    a < |agents| && agents[a].status == Active
  }

  /** The server is stored, belongs to the agent, and is neither deleted nor archived. */
  predicate Serves(servers: map<Uuid, Server>, a: nat, u: Uuid) {
    u in servers && servers[u].agentId == Some(a) && !servers[u].agentDeleted && servers[u].status != Archived
  }

  /** The texts PHP takes for empty. */
  predicate IsBlank(x: string) {
    x == "" || x == "0"
  }

  lemma {:induction false} NamedCounts(listed: seq<string>, x: string)
    ensures multiset(Named(listed))[x] == if IsBlank(x) then 0 else multiset(listed)[x]
  {
    var n := |listed|;
    if n > 0 {
      hide *;
      var front, last := listed[..n - 1], listed[n - 1];
      NamedCounts(front, x);
      assert listed == front + [last];
      OneMoreNamed(front, last);
      AddedCounts(front, Named(front), last, x, !IsBlank(last), !IsBlank(x));
    }
  }

  lemma {:induction false} OneMoreNamed(front: seq<string>, last: string)
    ensures Named(front + [last]) == Named(front) + if !IsBlank(last) then [last] else []
  {
    assert (front + [last])[..|front|] == front;
  }

  /** Both lists of an answer, counted: an accepted text is in the one, any other named text in the other. */
  lemma {:induction false} AnswerCounts(reg: Registry, agent: nat, listed: seq<string>, x: string)
    ensures var keeps := IsUuid(x) && Serves(reg.servers, agent, x);
            && multiset(AcceptedOf(reg, agent, listed))[x] == (if keeps then multiset(listed)[x] else 0)
            && multiset(RevokedOf(reg, agent, listed))[x]
               == (if keeps || IsBlank(x) then 0 else multiset(listed)[x])
  {
    AcceptedCount(reg, agent, listed, x);
    AnswersCount(reg, agent, listed);
    NamedCounts(listed, x);
    var accepted, revoked := AcceptedOf(reg, agent, listed), RevokedOf(reg, agent, listed);
    assert (multiset(accepted) + multiset(revoked))[x] == multiset(Named(listed))[x];
  }

  /**
   Every aggregated heartbeat: refused without effect unless the agent's row is active; else a
   listing is answered as often as it is sent, as accepted if it is the uuid of a server that
   agent serves and as revoked if it is any other text but the two PHP takes for empty, and
   whatever was accepted is stored online afterwards.
   */
  lemma {:induction false} AggregatedAnswer(w: World, agent: nat, listed: seq<string>, now: Time, raw: int, x: string)
    ensures var (after, r) := Aggregated(w, agent, listed, now, raw);
            if !IsActiveRow(w.reg.agents, agent) then r == Unauthenticated && after == w
            else
              && r.Reply?
              && (var keeps := IsUuid(x) && Serves(w.reg.servers, agent, x);
                  && multiset(r.accepted)[x] == (if keeps then multiset(listed)[x] else 0)
                  && multiset(r.revoked)[x] == (if keeps || IsBlank(x) then 0 else multiset(listed)[x]))
              && (x in r.accepted ==> x in after.reg.servers && after.reg.servers[x].status == Online)
  {
    AnswerCounts(w.reg, agent, listed, x);
    if x in w.reg.servers {
      TickEffect(w, Beat(agent, listed), now, raw, x);
    }
  }

  lemma {:induction false} ListsKeepOrder(reg: Registry, agent: nat, listed: seq<string>, k: nat)
    requires k <= |listed|
    ensures AcceptedOf(reg, agent, listed[..k]) <= AcceptedOf(reg, agent, listed)
    ensures RevokedOf(reg, agent, listed[..k]) <= RevokedOf(reg, agent, listed)
  {
    hide *;
    var n := |listed|;
    if k < n {
      var front, last := listed[..n - 1], listed[n - 1];
      ListsKeepOrder(reg, agent, front, k);
      assert front[..k] == listed[..k];
      assert listed == front + [last];
      AnswerStep(reg, agent, front, last);
    } else {
      assert listed[..k] == listed;
    }
  }

  /** Both lists keep the order of the listings: what is listed later is answered later. */
  lemma AnswersKeepOrder(w: World, agent: nat, listed: seq<string>, k: nat, now: Time, raw: int)
    requires IsActiveRow(w.reg.agents, agent) && k <= |listed|
    ensures var (first, r) := (Aggregated(w, agent, listed[..k], now, raw).1, Aggregated(w, agent, listed, now, raw).1);
            first.Reply? && r.Reply? && first.accepted <= r.accepted && first.revoked <= r.revoked
  {
    ListsKeepOrder(w.reg, agent, listed, k);
  }

  /** The single-server heartbeat: refused unless the agent's row is active, forbidden unless it serves that server. */
  lemma LegacyAnswer(w: World, agent: nat, u: Uuid, now: Time, raw: int)
    ensures var (after, r) := Legacy(w, agent, u, now, raw);
            if !IsActiveRow(w.reg.agents, agent) then r == Unauthenticated && after == w
            else if !Serves(w.reg.servers, agent, u) then r == Forbidden && after == w
            else r == Reply([u], []) && u in after.reg.servers && after.reg.servers[u].status == Online
  {
    if u in w.reg.servers {
      TickEffect(w, LegacyBeat(agent, u), now, raw, u);
    }
  }
}
