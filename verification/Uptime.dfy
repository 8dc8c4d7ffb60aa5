/** Gap analysis of the uptime report (`ReportController::calcUptime`). */
module Uptime {
  import opened Common
  import Sorting

  /** Instants and durations are in microseconds; minutes are compared without rounding. */
  const MINUTE: int := 60_000_000
  const HOUR: int := 60 * MINUTE
  const HEARTBEAT_INTERVAL_MINUTES: int := 5
  const GAP_MULTIPLIER: int := 3
  const GAP_LIMIT: int := HEARTBEAT_INTERVAL_MINUTES * GAP_MULTIPLIER * MINUTE

  /** The part of the report that depends on the updates; `lastDowntime` is the right end of the last outage. */
  datatype Report = Report(
    percentage: real,
    outageCount: nat,
    lastDowntime: Option<int>,
    uptimeHours: real,
    rangeHours: int)

  function Abs(x: int): nat {
    if x < 0 then -x else x
  }

  predicate Chronological(a: int, b: int) {
    a <= b
  }

  lemma ChronologicalIsOrder()
    ensures Sorting.TotalPreorder(Chronological)
    ensures forall s: seq<int> :: Sorting.TiesAreEqual(s, Chronological)
  {
  }

  /** PHP's `round($x, 2)` for a value that is not negative. */
  function Round2(x: real): real {
    (x * 100.0 + 0.5).Floor as real / 100.0
  }

  /** A gap counts only when it is longer than the limit. */
  function Outage(gap: nat): nat {
    if gap > GAP_LIMIT then gap else 0
  }

  /** Outage time, number of outages, and the end of the last one. */
  datatype Tally = Tally(outage: nat, count: nat, last: Option<int>)

  /** What one step of the walk, from one instant to the next, adds. */
  function AddGap(tally: Tally, from: int, to: int): Tally {
    var gap := Abs(to - from);
    if gap > GAP_LIMIT then Tally(tally.outage + gap, tally.count + 1, Some(to)) else tally
  }

  /** The tally of a chain of instants. */
  function TallyAlong(points: seq<int>): Tally {
    var n := |points|;
    if n < 2 then Tally(0, 0, None) else AddGap(TallyAlong(points[..n - 1]), points[n - 2], points[n - 1])
  }

  function OutageAlong(points: seq<int>): nat {
    TallyAlong(points).outage
  }

  function CountAlong(points: seq<int>): nat {
    TallyAlong(points).count
  }

  function LastDowntime(points: seq<int>): Option<int> {
    TallyAlong(points).last
  }

  /** The chain the report walks: range start, the updates in time order, now. */
  function Chain(now: int, updates: seq<int>, rangeHours: int): seq<int> {
    [now - rangeHours * HOUR] + Sorting.SortBy(updates, Chronological) + [now]
  }

  function Min(a: int, b: int): int {
    if a < b then a else b
  }

  function Clamp(x: real): real {
    if x < 0.0 then 0.0 else if x > 100.0 then 100.0 else x
  }

  /** The share of `total` that `part` is, in percent. */
  function Share(part: int, total: int): real
    requires total > 0
  {
    part as real / total as real * 100.0
  }

  /** Capped outage, then the share of the range that was not outage. */
  function PercentageFor(outage: int, rangeHours: int): real {
    var total := rangeHours * HOUR;
    if total > 0 then Clamp(Round2(Share(total - Min(outage, total), total))) else 0.0
  }

  function HoursFor(outage: int, rangeHours: int): real {
    var total := rangeHours * HOUR;
    Round2((total - Min(outage, total)) as real / HOUR as real)
  }

  /** The general formula, applied to any list of updates, empty or not. */
  function GeneralReport(now: int, updates: seq<int>, rangeHours: int): Report {
    var chain := Chain(now, updates, rangeHours);
    Report(PercentageFor(OutageAlong(chain), rangeHours), CountAlong(chain), LastDowntime(chain),
           HoursFor(OutageAlong(chain), rangeHours), rangeHours)
  }

  /** What the report says: the general formula, with the early return for no updates. */
  function ReportOf(now: int, updates: seq<int>, rangeHours: int): Report {
    if updates == [] then Report(0.0, 1, Some(now - rangeHours * HOUR), 0.0, rangeHours)
    else GeneralReport(now, updates, rangeHours)
  }

  lemma StepAlong(points: seq<int>, k: nat)
    requires 1 <= k < |points|
    ensures TallyAlong(points[..k + 1]) == AddGap(TallyAlong(points[..k]), points[k - 1], points[k])
  {
    assert points[..k + 1][..k] == points[..k];
  }

  /** The walk over the sorted updates: initial gap, gaps between neighbours, trailing gap. */
  method SumGaps(rangeStart: int, sorted: seq<int>, now: int)
    returns (outage: nat, outageCount: nat, lastDowntime: Option<int>)
    requires sorted != []
    ensures Tally(outage, outageCount, lastDowntime) == TallyAlong([rangeStart] + sorted + [now])
  {
    ghost var chain := [rangeStart] + sorted + [now];
    assert forall k :: 0 <= k < |sorted| ==> chain[k + 1] == sorted[k];
    outage, outageCount, lastDowntime := 0, 0, None;
    var first := sorted[0];
    var initialGap := Abs(first - rangeStart);
    if initialGap > GAP_LIMIT {
      outage, outageCount, lastDowntime := outage + initialGap, outageCount + 1, Some(first);
    }
    StepAlong(chain, 1);

    var prev := first;
    var i := 1;
    while i < |sorted|
      invariant 1 <= i <= |sorted|
      invariant prev == sorted[i - 1]
      invariant Tally(outage, outageCount, lastDowntime) == TallyAlong(chain[..i + 1])
    {
      StepAlong(chain, i + 1);
      var gap := Abs(sorted[i] - prev);
      if gap > GAP_LIMIT {
        outage, outageCount, lastDowntime := outage + gap, outageCount + 1, Some(sorted[i]);
      }
      prev := sorted[i];
      i := i + 1;
    }

    StepAlong(chain, |sorted| + 1);
    assert chain[..|sorted| + 2] == chain;
    var finalGap := Abs(now - sorted[|sorted| - 1]);
    if finalGap > GAP_LIMIT {
      outage, outageCount, lastDowntime := outage + finalGap, outageCount + 1, Some(now);
    }
  }

  method CalcUptime(now: int, updates: seq<int>, rangeHours: int) returns (report: Report)
    ensures report == ReportOf(now, updates, rangeHours)
  {
    var rangeStart := now - rangeHours * HOUR;
    if updates == [] {
      return Report(0.0, 1, Some(rangeStart), 0.0, rangeHours);
    }
    ChronologicalIsOrder();
    Sorting.SortIsPermutation(updates, Chronological);
    var sorted := Sorting.SortBy(updates, Chronological);
    var outage, outageCount, lastDowntime := SumGaps(rangeStart, sorted, now);

    var percentage, hours := Summarize(outage, rangeHours);
    report := Report(percentage, outageCount, lastDowntime, hours, rangeHours);
  }

  /** The share of the range and the hours without outage, with the outage capped at the range. */
  method Summarize(outage: nat, rangeHours: int) returns (percentage: real, hours: real)
    ensures percentage == PercentageFor(outage, rangeHours) && hours == HoursFor(outage, rangeHours)
  {
    var total := rangeHours * HOUR;
    var effective := Min(outage, total);
    percentage := Clamp(if total > 0 then Round2(Share(total - effective, total)) else 0.0);
    hours := Round2((total - effective) as real / HOUR as real);
  }

  // ---- order independence ----

  lemma {:induction false} SortDependsOnMultiset(u: seq<int>, v: seq<int>)
    requires multiset(u) == multiset(v)
    ensures Sorting.SortBy(u, Chronological) == Sorting.SortBy(v, Chronological)
  {
    ChronologicalIsOrder();
    Sorting.SortIsPermutation(u, Chronological);
    Sorting.SortIsPermutation(v, Chronological);
    Sorting.SortIsSorted(u, Chronological);
    Sorting.SortIsSorted(v, Chronological);
    Sorting.SortedIsUnique(Sorting.SortBy(u, Chronological), Sorting.SortBy(v, Chronological), Chronological);
  }

  /** Permuting the updates changes nothing in the report. */
  lemma OrderIndependent(now: int, u: seq<int>, v: seq<int>, rangeHours: int)
    requires multiset(u) == multiset(v)
    ensures ReportOf(now, u, rangeHours) == ReportOf(now, v, rangeHours)
  {
    SortDependsOnMultiset(u, v);
    assert |multiset(u)| == |u| && |multiset(v)| == |v|;
  }

  // ---- chains whose instants lie in the range ----

  ghost predicate InRange(now: int, updates: seq<int>, rangeHours: int) {
    rangeHours >= 0 && forall t :: t in updates ==> now - rangeHours * HOUR <= t <= now
  }

  ghost predicate Ascending(points: seq<int>) {
    Sorting.Sorted(points, Chronological)
  }

  lemma ChainAscends(now: int, updates: seq<int>, rangeHours: int)
    requires InRange(now, updates, rangeHours)
    ensures Ascending(Chain(now, updates, rangeHours))
  {
    ChronologicalIsOrder();
    Sorting.SortIsSorted(updates, Chronological);
    Sorting.SortKeepsMembers(updates, Chronological);
    var sorted := Sorting.SortBy(updates, Chronological);
    var chain := Chain(now, updates, rangeHours);
    forall i, j | 0 <= i < j < |chain|
      ensures chain[i] <= chain[j]
    {
      assert i > 0 ==> chain[i] == sorted[i - 1] && chain[i] in sorted;
      assert j < |chain| - 1 ==> chain[j] == sorted[j - 1] && chain[j] in sorted;
    }
  }

  /** The gaps of an ascending chain telescope, so the outage inside it fits between its ends. */
  lemma {:induction false} OutageTelescopes(points: seq<int>)
    requires Ascending(points) && points != []
    ensures OutageAlong(points) <= points[|points| - 1] - points[0]
    ensures CountAlong(points) * GAP_LIMIT <= OutageAlong(points)
    ensures CountAlong(points) > 0 ==> CountAlong(points) * GAP_LIMIT < OutageAlong(points)
  {
    if |points| >= 2 {
      OutageTelescopes(points[..|points| - 1]);
      assert points[|points| - 2] <= points[|points| - 1];
    }
  }

  /**
   For updates inside the range the outage never exceeds the range, so the cap
   changes nothing, the percentage is a percentage before it is clamped, and
   fewer than four outages fit in an hour.
   */
  lemma InRangeBounds(now: int, updates: seq<int>, rangeHours: int)
    requires InRange(now, updates, rangeHours) && rangeHours > 0
    ensures var outage := OutageAlong(Chain(now, updates, rangeHours));
            var total := rangeHours * HOUR;
            && outage <= total
            && Min(outage, total) == outage
            && 0.0 <= Round2(Share(total - outage, total)) <= 100.0
    ensures 0.0 <= ReportOf(now, updates, rangeHours).percentage <= 100.0
    ensures ReportOf(now, updates, rangeHours).outageCount < 4 * rangeHours
  {
    ChainAscends(now, updates, rangeHours);
    var chain := Chain(now, updates, rangeHours);
    OutageTelescopes(chain);
    assert chain[0] == now - rangeHours * HOUR && chain[|chain| - 1] == now;
    RoundedShareIsPercentage(OutageAlong(chain), rangeHours * HOUR);
  }

  lemma QuotientMonotone(x: real, y: real, d: real)
    requires x <= y && d > 0.0
    ensures x / d <= y / d
  {
    assert y / d - x / d == (y - x) / d;
  }

  lemma Round2Monotone(x: real, y: real)
    requires x <= y
    ensures Round2(x) <= Round2(y)
  {
    assert (x * 100.0 + 0.5).Floor <= (y * 100.0 + 0.5).Floor;
  }

  lemma RoundedShareMonotone(a: int, b: int, total: int)
    requires a <= b && total > 0
    ensures Round2(Share(a, total)) <= Round2(Share(b, total))
  {
    QuotientMonotone(a as real, b as real, total as real);
    Round2Monotone(Share(a, total), Share(b, total));
  }

  lemma RoundedShareIsPercentage(outage: nat, total: nat)
    requires 0 < total && outage <= total
    ensures 0.0 <= Round2(Share(total - outage, total)) <= 100.0
  {
    assert Share(0, total) == 0.0 && Share(total, total) == 100.0;
    RoundedShareMonotone(0, total - outage, total);
    RoundedShareMonotone(total - outage, total, total);
    assert Round2(0.0) == 0.0 && Round2(100.0) == 100.0;
  }

  // ---- one more update ----

  /** A chain splits at any of its points. */
  lemma {:induction false} SplitAt(a: seq<int>, x: int, b: seq<int>)
    ensures OutageAlong(a + [x] + b) == OutageAlong(a + [x]) + OutageAlong([x] + b)
    decreases |b|
  {
    if b == [] {
      assert a + [x] + b == a + [x];
    } else {
      var b' := b[..|b| - 1];
      SplitAt(a, x, b');
      var whole, right := a + [x] + b, [x] + b;
      assert whole[..|whole| - 1] == a + [x] + b';
      assert right[..|right| - 1] == [x] + b';
      assert whole[|whole| - 2] == right[|right| - 2];
    }
  }

  lemma OutageOfPair(x: int, y: int)
    ensures OutageAlong([x, y]) == Outage(Abs(y - x))
  {
    assert [x, y][..1] == [x];
    assert TallyAlong([x]) == Tally(0, 0, None);
  }

  /** Splitting one gap never raises the sum of long gaps. */
  lemma SplittingAGap(a: seq<int>, x: int, m: int, y: int, b: seq<int>)
    requires x <= m <= y
    ensures OutageAlong(a + [x, m, y] + b) <= OutageAlong(a + [x, y] + b)
  {
    assert a + [x, m, y] + b == a + [x] + ([m, y] + b);
    SplitAt(a, x, [m, y] + b);
    assert [x] + ([m, y] + b) == [x] + [m] + ([y] + b);
    SplitAt([x], m, [y] + b);
    GapThenRest(m, y, b);
    assert a + [x, y] + b == a + [x] + ([y] + b);
    SplitAt(a, x, [y] + b);
    GapThenRest(x, y, b);
    assert [x] + [m] == [x, m];
    OutageOfPair(x, m);
  }

  lemma GapThenRest(x: int, y: int, b: seq<int>)
    ensures OutageAlong([x] + ([y] + b)) == Outage(Abs(y - x)) + OutageAlong([y] + b)
  {
    assert [x] + ([y] + b) == [x] + [y] + b;
    SplitAt([x], y, b);
    assert [x] + [y] == [x, y];
    OutageOfPair(x, y);
  }

  lemma ChainWithInsertion(start: int, sorted: seq<int>, i: nat, x: int, now: int)
    requires i <= |sorted| && start <= x <= now
    requires forall j :: 0 <= j < i ==> sorted[j] <= x
    requires forall j :: i <= j < |sorted| ==> x <= sorted[j]
    ensures var chain := [start] + sorted + [now];
            && chain == chain[..i] + [chain[i], chain[i + 1]] + chain[i + 2..]
            && [start] + (sorted[..i] + [x] + sorted[i..]) + [now]
               == chain[..i] + [chain[i], x, chain[i + 1]] + chain[i + 2..]
            && chain[i] <= x <= chain[i + 1]
  {
    var front, back := [start] + sorted[..i], sorted[i..] + [now];
    assert sorted == sorted[..i] + sorted[i..];
    Regrouped(start, sorted[..i], sorted[i..], x, now);
    Between(front, back, x);
    assert front[i] == if i > 0 then sorted[i - 1] else start;
    assert back[0] == if i < |sorted| then sorted[i] else now;
  }

  lemma Regrouped(start: int, a: seq<int>, b: seq<int>, x: int, now: int)
    ensures [start] + (a + b) + [now] == ([start] + a) + (b + [now])
    ensures [start] + (a + [x] + b) + [now] == ([start] + a) + [x] + (b + [now])
  {
  }

  lemma Between(front: seq<int>, back: seq<int>, x: int)
    requires front != [] && back != []
    ensures var chain, i := front + back, |front| - 1;
            && chain == chain[..i] + [chain[i], chain[i + 1]] + chain[i + 2..]
            && front + [x] + back == chain[..i] + [chain[i], x, chain[i + 1]] + chain[i + 2..]
            && chain[i] == front[i] && chain[i + 1] == back[0]
  {
  }

  lemma PointInChain(start: int, sorted: seq<int>, i: nat, x: int, now: int)
    requires i <= |sorted| && start <= x <= now
    requires forall j :: 0 <= j < i ==> sorted[j] <= x
    requires forall j :: i <= j < |sorted| ==> x <= sorted[j]
    ensures OutageAlong([start] + (sorted[..i] + [x] + sorted[i..]) + [now]) <= OutageAlong([start] + sorted + [now])
  {
    ChainWithInsertion(start, sorted, i, x, now);
    var chain := [start] + sorted + [now];
    SplittingAGap(chain[..i], chain[i], x, chain[i + 1], chain[i + 2..]);
  }

  lemma SortWithOneMore(x: int, updates: seq<int>) returns (i: nat)
    ensures var sorted := Sorting.SortBy(updates, Chronological);
            && i <= |sorted|
            && Sorting.SortBy([x] + updates, Chronological) == sorted[..i] + [x] + sorted[i..]
            && (forall j :: 0 <= j < i ==> sorted[j] <= x)
            && (forall j :: i <= j < |sorted| ==> x <= sorted[j])
  {
    ChronologicalIsOrder();
    Sorting.SortIsSorted(updates, Chronological);
    assert ([x] + updates)[1..] == updates;
    i := Sorting.InsertPlaces(x, Sorting.SortBy(updates, Chronological), Chronological);
    assert forall j :: 0 <= j < i ==> Chronological(Sorting.SortBy(updates, Chronological)[j], x);
  }

  /** Adding an update inside the range never increases the outage. */
  lemma AddingAnUpdate(now: int, x: int, updates: seq<int>, rangeHours: int)
    requires InRange(now, [x] + updates, rangeHours)
    ensures OutageAlong(Chain(now, [x] + updates, rangeHours)) <= OutageAlong(Chain(now, updates, rangeHours))
  {
    var sorted := Sorting.SortBy(updates, Chronological);
    var i := SortWithOneMore(x, updates);
    assert x in [x] + updates;
    var start := now - rangeHours * HOUR;
    assert Chain(now, [x] + updates, rangeHours) == [start] + (sorted[..i] + [x] + sorted[i..]) + [now];
    assert Chain(now, updates, rangeHours) == [start] + sorted + [now];
    PointInChain(start, sorted, i, x, now);
  }

  lemma RemoveOne(more: seq<int>, x: int) returns (rest: seq<int>)
    requires x in more
    ensures |rest| < |more| && multiset(more) == multiset([x] + rest) == multiset(rest) + multiset{x}
    ensures forall t :: t in rest ==> t in more
  {
    var k :| 0 <= k < |more| && more[k] == x;
    rest := more[..k] + more[k + 1..];
    assert more == more[..k] + [x] + more[k + 1..];
  }

  /** More updates inside the range never report more outage or a lower percentage. */
  lemma {:induction false} MoreUpdatesNeverHurt(now: int, fewer: seq<int>, more: seq<int>, rangeHours: int)
    requires multiset(fewer) <= multiset(more)
    requires InRange(now, more, rangeHours) && rangeHours > 0
    ensures OutageAlong(Chain(now, more, rangeHours)) <= OutageAlong(Chain(now, fewer, rangeHours))
    ensures ReportOf(now, fewer, rangeHours).percentage <= ReportOf(now, more, rangeHours).percentage
    decreases |more|
  {
    assert |multiset(fewer)| == |fewer| && |multiset(more)| == |more|;
    if x :| x in more && multiset(fewer)[x] < multiset(more)[x] {
      var rest := RemoveOne(more, x);
      MoreUpdatesNeverHurt(now, fewer, rest, rangeHours);
      AddingAnUpdate(now, x, rest, rangeHours);
      SortDependsOnMultiset([x] + rest, more);
      OrderIndependent(now, [x] + rest, more, rangeHours);
      GeneralFormulaCoversEmpty(now, rangeHours);
      PercentageAntitone(
        OutageAlong(Chain(now, more, rangeHours)), OutageAlong(Chain(now, rest, rangeHours)), rangeHours);
    } else {
      forall x
        ensures multiset(fewer)[x] == multiset(more)[x]
      {
        assert x in multiset(more) <==> x in more;
      }
      assert multiset(fewer) == multiset(more);
      SortDependsOnMultiset(fewer, more);
      OrderIndependent(now, fewer, more, rangeHours);
    }
  }

  lemma PercentageAntitone(less: nat, more: nat, rangeHours: int)
    requires less <= more && rangeHours > 0
    ensures PercentageFor(more, rangeHours) <= PercentageFor(less, rangeHours)
  {
    var total := rangeHours * HOUR;
    var a, b := total - Min(more, total), total - Min(less, total);
    RoundedShareMonotone(a, b, total);
  }

  /** The early return for no updates reports what the general formula would, except where the last outage ended. */
  lemma GeneralFormulaCoversEmpty(now: int, rangeHours: int)
    requires rangeHours > 0
    ensures var early, general := ReportOf(now, [], rangeHours), GeneralReport(now, [], rangeHours);
            && early.percentage == general.percentage
            && early.outageCount == general.outageCount
            && early.uptimeHours == general.uptimeHours
            && early.lastDowntime == Some(now - rangeHours * HOUR)
            && general.lastDowntime == Some(now)
  {
    var start := now - rangeHours * HOUR;
    assert Chain(now, [], rangeHours) == [start, now];
    assert [start, now][..1] == [start];
    assert CountAlong([start]) == 0;
    assert CountAlong([start, now]) == 1;
    var total := rangeHours * HOUR;
    assert 0 as real / total as real == 0.0;
  }

  /**
   How early updates may start for the outage to fit in the range whatever they are. The callers
   select updates from the range on, but against an earlier `now()` and in whole seconds, so an
   update can lie a little before the start of the range calculated here; then the bound can fail.
   It holds for every list of updates from `lo` on exactly when `lo` is not before that start.
   */
  lemma RangeBoundHoldsExactlyWhen(now: int, lo: int, rangeHours: int)
    requires rangeHours > 0 && lo <= now
    ensures (forall updates :: (forall t :: t in updates ==> lo <= t <= now) ==>
                OutageAlong(Chain(now, updates, rangeHours)) <= rangeHours * HOUR)
       <==> now - rangeHours * HOUR <= lo
  {
    if now - rangeHours * HOUR <= lo {
      forall updates | forall t :: t in updates ==> lo <= t <= now
        ensures OutageAlong(Chain(now, updates, rangeHours)) <= rangeHours * HOUR
      {
        InRangeBounds(now, updates, rangeHours);
      }
    } else {
      OneEarlyUpdate(now, lo, rangeHours);
      assert forall t :: t in [lo] ==> lo <= t <= now;
    }
  }

  /** A single update before the range: the gap that follows it is longer than the range. */
  lemma OneEarlyUpdate(now: int, lo: int, rangeHours: int)
    requires rangeHours > 0 && lo < now - rangeHours * HOUR
    ensures OutageAlong(Chain(now, [lo], rangeHours)) > rangeHours * HOUR
  {
    var start := now - rangeHours * HOUR;
    assert Sorting.SortBy([lo], Chronological) == [lo];
    assert Chain(now, [lo], rangeHours) == [start, lo, now];
    assert [start, lo, now][..2] == [start, lo];
    OutageOfPair(start, lo);
  }

  // ---- what the figures mean ----

  /** Between this instant and the one before it more than fifteen minutes passed. */
  predicate EndsLongGap(points: seq<int>, k: nat) {
    0 < k < |points| && (points[k] - points[k - 1] > 900_000_000 || points[k - 1] - points[k] > 900_000_000)
  }

  /**
   The last downtime is the end of the latest gap of more than fifteen
   minutes, and there is none without such a gap.
   */
  lemma {:induction false} LastDowntimeIs(points: seq<int>) returns (k: nat)
    ensures if LastDowntime(points).Some? then
              && EndsLongGap(points, k) && LastDowntime(points) == Some(points[k])
              && forall m :: k < m < |points| ==> !EndsLongGap(points, m)
            else forall m :: 0 <= m < |points| ==> !EndsLongGap(points, m)
  {
    k := 0;
    var n := |points| - 1;
    if n >= 1 {
      var front := points[..n];
      k := LastDowntimeIs(front);
      assert forall m :: 0 <= m < n ==> (EndsLongGap(front, m) <==> EndsLongGap(points, m));
      if EndsLongGap(points, n) {
        k := n;
      }
    }
  }

  function GapBefore(points: seq<int>, k: nat): nat
    requires 0 < k < |points|
  {
    if points[k] >= points[k - 1] then points[k] - points[k - 1] else points[k - 1] - points[k]
  }

  /** The long gaps from index `k` on, added up, and how many they are. */
  function LongGaps(points: seq<int>, k: nat): (int, nat)
    decreases |points| - k
  {
    if k >= |points| then (0, 0)
    else
      var (sum, count) := LongGaps(points, k + 1);
      if EndsLongGap(points, k) then (sum + GapBefore(points, k), count + 1) else (sum, count)
  }

  lemma {:induction false} LongGapsOfFront(points: seq<int>, k: nat)
    requires k < |points|
    ensures var n := |points| - 1;
            var (sum, count), (frontSum, frontCount) := LongGaps(points, k), LongGaps(points[..n], k);
            if EndsLongGap(points, n) then sum == frontSum + GapBefore(points, n) && count == frontCount + 1
            else sum == frontSum && count == frontCount
    decreases |points| - k
  {
    var front := points[..|points| - 1];
    if k < |points| - 1 {
      LongGapsOfFront(points, k + 1);
      assert EndsLongGap(front, k) <==> EndsLongGap(points, k);
      assert k > 0 ==> GapBefore(front, k) == GapBefore(points, k);
    }
  }

  /** Outage time and number of outages are the sum and the number of the gaps of more than fifteen minutes. */
  lemma {:induction false} OutagesAreLongGaps(points: seq<int>)
    ensures (OutageAlong(points), CountAlong(points)) == LongGaps(points, 0)
  {
    if |points| >= 1 {
      OutagesAreLongGaps(points[..|points| - 1]);
      LongGapsOfFront(points, 0);
    }
  }

  /** Rounding moves a figure by half a hundredth at most, to a whole number of hundredths. */
  lemma RoundedIsNear(x: real) returns (n: int)
    ensures -0.005 <= Round2(x) - x <= 0.005
    ensures Round2(x) == n as real / 100.0
  {
    n := (x * 100.0 + 0.5).Floor;
    assert n as real <= x * 100.0 + 0.5 < n as real + 1.0;
    assert Round2(x) == n as real / 100.0;
  }

  lemma ShareIsPercentage(part: int, total: int)
    requires 0 <= part <= total && total > 0
    ensures 0.0 <= Share(part, total) <= 100.0
  {
    QuotientMonotone(0.0, part as real, total as real);
    QuotientMonotone(part as real, total as real, total as real);
  }

  lemma ClampedStaysNear(x: real, y: real)
    requires 0.0 <= x <= 100.0 && -0.005 <= y - x <= 0.005
    ensures -0.005 <= Clamp(y) - x <= 0.005 && 0.0 <= Clamp(y) <= 100.0
  {
  }

  /**
   The report over a range of hours with at least one update: its hours are what is left of the
   range without the outages, which are counted up to the whole range, and its percentage is that
   share, each within half a hundredth.
   */
  lemma ReportFigures(now: int, updates: seq<int>, rangeHours: int)
    requires updates != [] && rangeHours > 0
    ensures var report, total := ReportOf(now, updates, rangeHours), rangeHours * 3_600_000_000;
            var outage := OutageAlong(Chain(now, updates, rangeHours));
            var up := if outage < total then total - outage else 0;
            && -0.005 <= report.uptimeHours - up as real / 3_600_000_000.0 <= 0.005
            && -0.005 <= report.percentage - up as real / total as real * 100.0 <= 0.005
            && 0.0 <= report.percentage <= 100.0
            && report.rangeHours == rangeHours
            && report.lastDowntime == LastDowntime(Chain(now, updates, rangeHours))
            && report.outageCount == CountAlong(Chain(now, updates, rangeHours))
  {
    var total, outage := rangeHours * HOUR, OutageAlong(Chain(now, updates, rangeHours));
    var up := total - Min(outage, total);
    var hundredths := RoundedIsNear(up as real / HOUR as real);
    hundredths := RoundedIsNear(Share(up, total));
    ShareIsPercentage(up, total);
    ClampedStaysNear(Share(up, total), Round2(Share(up, total)));
  }

  /** Over no hours at all, or a negative number of them, both figures are zero. */
  lemma FiguresOfNoRange(now: int, updates: seq<int>, rangeHours: int)
    requires rangeHours <= 0
    ensures ReportOf(now, updates, rangeHours).percentage == 0.0
            && ReportOf(now, updates, rangeHours).uptimeHours == 0.0
  {
    assert Round2(0.0) == 0.0;
  }

  /** The chain the figures are taken from: the start of the range, the updates in ascending order, and now. */
  lemma ChainIs(now: int, updates: seq<int>, rangeHours: int)
    ensures var chain := Chain(now, updates, rangeHours);
            && |chain| == |updates| + 2
            && chain[0] == now - rangeHours * 3_600_000_000 && chain[|chain| - 1] == now
            && multiset(chain[1..|chain| - 1]) == multiset(updates)
            && forall i, j :: 1 <= i < j < |chain| - 1 ==> chain[i] <= chain[j]
  {
    ChronologicalIsOrder();
    Sorting.SortIsSorted(updates, Chronological);
    Sorting.SortIsPermutation(updates, Chronological);
    var sorted, chain := Sorting.SortBy(updates, Chronological), Chain(now, updates, rangeHours);
    assert |multiset(sorted)| == |sorted| && |multiset(updates)| == |updates|;
    assert chain[1..|chain| - 1] == sorted;
    assert forall i :: 1 <= i < |chain| - 1 ==> chain[i] == sorted[i - 1];
  }

}
