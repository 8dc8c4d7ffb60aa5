/** The recursive cleaner of report data (`ReportController::filterNulls`). */
module FilterNulls {

  /** Report data: an array keeps its keys in insertion order. */
  datatype Json = Null | Scalar(value: int) | Arr(entries: Entries)

  datatype Entry = Entry(key: string, value: Json)

  type Entries = seq<Entry>

  /** A scalar with the keys that lead to it. */
  datatype Leaf = Leaf(path: seq<string>, scalar: int)

  /** What the loop appends for one entry. */
  function Kept(key: string, value: Json): Entries
    decreases value, 1
  {
    match value
    case Null => []
    case Scalar(_) => [Entry(key, value)]
    case Arr(entries) =>
      var filtered := Filtered(entries);
      if filtered == [] then [] else [Entry(key, Arr(filtered))]
  }

  function Filtered(data: Entries): Entries
    decreases data, 0
  {
    var n := |data|;
    if n == 0 then []
    else
      var Entry(key, value) := data[n - 1];
      Filtered(data[..n - 1]) + Kept(key, value)
  }

  method FilterNulls(data: Entries) returns (result: Entries)
    ensures result == Filtered(data)
    decreases data
  {
    result := [];
    var i := 0;
    while i < |data|
      invariant 0 <= i <= |data|
      invariant result == Filtered(data[..i])
    {
      assert data[..i + 1][..i] == data[..i];
      var Entry(key, value) := data[i];
      match value {
        case Null =>
        case Arr(entries) =>
          var filtered := FilterNulls(entries);
          if filtered != [] {
            result := result + [Entry(key, Arr(filtered))];
          }
        case Scalar(_) =>
          result := result + [Entry(key, value)];
      }
      i := i + 1;
    }
    assert data[..i] == data;
  }

  // ---- what a result may hold ----

  predicate CleanValue(value: Json)
    decreases value, 1
  {
    match value
    case Null => false
    case Scalar(_) => true
    case Arr(entries) => entries != [] && Clean(entries)
  }

  /** No null and no empty array at any depth below the root. */
  predicate Clean(data: Entries)
    decreases data, 0
  {
    forall i :: 0 <= i < |data| ==> CleanValue(data[i].value)
  }

  function Prefixed(key: string, leaves: seq<Leaf>): seq<Leaf> {
    seq(|leaves|, i requires 0 <= i < |leaves| => Leaf([key] + leaves[i].path, leaves[i].scalar))
  }

  function LeavesOf(key: string, value: Json): seq<Leaf>
    decreases value, 1
  {
    match value
    case Null => []
    case Scalar(v) => [Leaf([key], v)]
    case Arr(entries) => Prefixed(key, Leaves(entries))
  }

  /** The non-null scalars with their paths, in document order. */
  function Leaves(data: Entries): seq<Leaf>
    decreases data, 0
  {
    var n := |data|;
    if n == 0 then []
    else
      var Entry(key, value) := data[n - 1];
      Leaves(data[..n - 1]) + LeavesOf(key, value)
  }

  lemma {:induction false} FilteredIsClean(data: Entries)
    ensures Clean(Filtered(data))
    decreases data
  {
    var n := |data|;
    if n > 0 {
      FilteredIsClean(data[..n - 1]);
      match data[n - 1].value {
        case Arr(entries) => FilteredIsClean(entries);
        case _ =>
      }
    }
  }

  lemma {:induction false} LeavesSnoc(data: Entries, key: string, value: Json)
    ensures Leaves(data + [Entry(key, value)]) == Leaves(data) + LeavesOf(key, value)
  {
    assert (data + [Entry(key, value)])[..|data|] == data;
  }

  /** Exactly the non-null scalars survive, each at its path and in its order. */
  lemma {:induction false} FilteredKeepsLeaves(data: Entries)
    ensures Leaves(Filtered(data)) == Leaves(data)
    decreases data
  {
    var n := |data|;
    if n > 0 {
      var Entry(key, value) := data[n - 1];
      FilteredKeepsLeaves(data[..n - 1]);
      assert Filtered(data) == Filtered(data[..n - 1]) + Kept(key, value);
      match value {
        case Null =>
          assert Filtered(data) == Filtered(data[..n - 1]);
        case Scalar(_) =>
          LeavesSnoc(Filtered(data[..n - 1]), key, value);
        case Arr(entries) =>
          FilteredKeepsLeaves(entries);
          if Filtered(entries) == [] {
            assert Filtered(data) == Filtered(data[..n - 1]);
            assert LeavesOf(key, value) == [];
          } else {
            LeavesSnoc(Filtered(data[..n - 1]), key, Arr(Filtered(entries)));
          }
      }
    }
  }

  // ---- no other clean array has the same leaves ----

  /** Sibling keys are distinct, as in every PHP array. */
  predicate DistinctKeys(data: Entries)
    decreases data
  {
    && (forall i, j :: 0 <= i < j < |data| ==> data[i].key != data[j].key)
    && (forall i :: 0 <= i < |data| && data[i].value.Arr? ==> DistinctKeys(data[i].value.entries))
  }

  lemma {:induction false} CleanHasLeaf(data: Entries)
    requires Clean(data) && data != []
    ensures Leaves(data) != []
    decreases data
  {
    var n := |data|;
    assert CleanValue(data[n - 1].value);
    match data[n - 1].value {
      case Arr(entries) => CleanHasLeaf(entries);
      case _ =>
    }
  }

  lemma {:induction false} PathsStartWithKeys(data: Entries)
    ensures forall l :: l in Leaves(data) ==> l.path != [] && exists i :: 0 <= i < |data| && data[i].key == l.path[0]
    decreases |data|
  {
    var n := |data|;
    if n > 0 {
      var front := data[..n - 1];
      PathsStartWithKeys(front);
      forall l | l in Leaves(data)
        ensures l.path != [] && exists i :: 0 <= i < |data| && data[i].key == l.path[0]
      {
        if l in Leaves(front) {
          var i :| 0 <= i < |front| && front[i].key == l.path[0];
          assert data[i].key == l.path[0];
        } else {
          assert l in LeavesOf(data[n - 1].key, data[n - 1].value);
          assert data[n - 1].key == l.path[0];
        }
      }
    }
  }

  lemma {:induction false} LastLeaves(data: Entries)
    requires Clean(data) && data != []
    ensures var back := LeavesOf(data[|data| - 1].key, data[|data| - 1].value);
            && back != []
            && forall l :: l in back ==> l.path != [] && l.path[0] == data[|data| - 1].key
  {
    var last := data[|data| - 1];
    assert CleanValue(last.value);
    if last.value.Arr? {
      CleanHasLeaf(last.value.entries);
    }
  }

  lemma {:induction false} FrontLeaves(data: Entries)
    requires DistinctKeys(data) && data != []
    ensures DistinctKeys(data[..|data| - 1])
    ensures forall l :: l in Leaves(data[..|data| - 1]) ==> l.path != [] && l.path[0] != data[|data| - 1].key
  {
    PathsStartWithKeys(data[..|data| - 1]);
  }

  lemma SplitsAgree(x: seq<Leaf>, y: seq<Leaf>, x': seq<Leaf>, y': seq<Leaf>, key: string, key': string)
    requires x + y == x' + y' && y != [] && y' != []
    requires forall l :: l in y ==> l.path != [] && l.path[0] == key
    requires forall l :: l in x ==> l.path != [] && l.path[0] != key
    requires forall l :: l in y' ==> l.path != [] && l.path[0] == key'
    requires forall l :: l in x' ==> l.path != [] && l.path[0] != key'
    ensures key == key' && x == x' && y == y'
  {
    var all := x + y;
    assert all[|all| - 1] == y[|y| - 1] == y'[|y'| - 1];
    forall i | 0 <= i < |all|
      ensures all[i].path != []
      ensures i < |x| <==> all[i].path[0] != key
      ensures i < |x'| <==> all[i].path[0] != key'
    {
      assert all[i] == if i < |x| then x[i] else y[i - |x|];
      assert all[i] == if i < |x'| then x'[i] else y'[i - |x'|];
    }
    assert all[|x|].path[0] == key && all[|x'|].path[0] == key;
    assert x == all[..|x|] && x' == all[..|x'|];
    assert y == all[|x|..] && y' == all[|x'|..];
  }

  lemma PrefixedInjective(key: string, a: seq<Leaf>, b: seq<Leaf>)
    requires Prefixed(key, a) == Prefixed(key, b)
    ensures a == b
  {
    assert |a| == |Prefixed(key, a)| == |b|;
    forall i | 0 <= i < |a|
      ensures a[i] == b[i]
    {
      assert Prefixed(key, a)[i] == Prefixed(key, b)[i];
      assert ([key] + a[i].path)[1..] == a[i].path;
      assert ([key] + b[i].path)[1..] == b[i].path;
    }
  }

  /** A clean array is determined by its leaves. */
  lemma {:induction false} CleanIsDeterminedByLeaves(a: Entries, b: Entries)
    requires Clean(a) && Clean(b) && DistinctKeys(a) && DistinctKeys(b)
    requires Leaves(a) == Leaves(b)
    ensures a == b
    decreases a
  {
    if a == [] {
      if b != [] {
        CleanHasLeaf(b);
      }
    } else if b == [] {
      CleanHasLeaf(a);
    } else {
      var n, m := |a|, |b|;
      LastLeaves(a);
      LastLeaves(b);
      FrontLeaves(a);
      FrontLeaves(b);
      SplitsAgree(Leaves(a[..n - 1]), LeavesOf(a[n - 1].key, a[n - 1].value),
                  Leaves(b[..m - 1]), LeavesOf(b[m - 1].key, b[m - 1].value), a[n - 1].key, b[m - 1].key);
      CleanIsDeterminedByLeaves(a[..n - 1], b[..m - 1]);
      SameValue(a[n - 1].key, a[n - 1].value, b[m - 1].value);
      assert a == a[..n - 1] + [a[n - 1]] && b == b[..m - 1] + [b[m - 1]];
    }
  }

  lemma {:induction false} SameValue(key: string, v: Json, w: Json)
    requires CleanValue(v) && CleanValue(w)
    requires v.Arr? ==> DistinctKeys(v.entries)
    requires w.Arr? ==> DistinctKeys(w.entries)
    requires LeavesOf(key, v) == LeavesOf(key, w)
    ensures v == w
    decreases v
  {
    match (v, w) {
      case (Arr(p), Arr(q)) =>
        PrefixedInjective(key, Leaves(p), Leaves(q));
        CleanIsDeterminedByLeaves(p, q);
      case (Scalar(s), Scalar(t)) =>
        assert LeavesOf(key, v)[0] == Leaf([key], s) && LeavesOf(key, w)[0] == Leaf([key], t);
      case (Scalar(s), Arr(q)) =>
        ArrayLeavesAreDeep(key, q);
      case (Arr(p), Scalar(t)) =>
        ArrayLeavesAreDeep(key, p);
    }
  }

  lemma {:induction false} ArrayLeavesAreDeep(key: string, entries: Entries)
    requires entries != [] && Clean(entries)
    ensures LeavesOf(key, Arr(entries)) != []
    ensures |LeavesOf(key, Arr(entries))[0].path| >= 2
  {
    CleanHasLeaf(entries);
    PathsStartWithKeys(entries);
    assert Leaves(entries)[0] in Leaves(entries);
  }

  lemma {:induction false} FilteredKeysComeFromData(data: Entries)
    ensures forall e :: e in Filtered(data) ==> exists i :: 0 <= i < |data| && data[i].key == e.key
    decreases |data|
  {
    if data != [] {
      var front := data[..|data| - 1];
      FilteredKeysComeFromData(front);
      forall e | e in Filtered(data)
        ensures exists i :: 0 <= i < |data| && data[i].key == e.key
      {
        if e in Filtered(front) {
          var i :| 0 <= i < |front| && front[i].key == e.key;
          assert data[i].key == e.key;
        } else {
          assert Filtered(data) == Filtered(front) + Kept(data[|data| - 1].key, data[|data| - 1].value);
          assert e in Kept(data[|data| - 1].key, data[|data| - 1].value);
          assert data[|data| - 1].key == e.key;
        }
      }
    }
  }

  lemma {:induction false} FilteredKeepsKeysDistinct(data: Entries)
    requires DistinctKeys(data)
    ensures DistinctKeys(Filtered(data))
    decreases data
  {
    if data != [] {
      var front, last := data[..|data| - 1], data[|data| - 1];
      FilteredKeepsKeysDistinct(front);
      FilteredKeysComeFromData(front);
      if last.value.Arr? {
        FilteredKeepsKeysDistinct(last.value.entries);
      }
      var result := Filtered(data);
      forall i, j | 0 <= i < j < |result|
        ensures result[i].key != result[j].key
      {
        assert result[i] in Filtered(front);
      }
    }
  }

  /** The cleaner's result is the only clean array with the leaves of its input. */
  lemma {:induction false} FilteredIsTheOnlyOne(data: Entries, other: Entries)
    requires DistinctKeys(data)
    ensures Clean(other) && DistinctKeys(other) && Leaves(other) == Leaves(data) <==> other == Filtered(data)
  {
    FilteredIsClean(data);
    FilteredKeepsLeaves(data);
    FilteredKeepsKeysDistinct(data);
    if Clean(other) && DistinctKeys(other) && Leaves(other) == Leaves(data) {
      CleanIsDeterminedByLeaves(other, Filtered(data));
    }
  }

  // ---- fixed points ----

  /** The clean arrays are exactly the ones the cleaner leaves alone. */
  lemma {:induction false} CleanIffFixed(data: Entries)
    ensures Clean(data) <==> Filtered(data) == data
    decreases data
  {
    FilteredIsClean(data);
    var n := |data|;
    if n > 0 && Clean(data) {
      var front := data[..n - 1];
      CleanIffFixed(front);
      assert CleanValue(data[n - 1].value);
      match data[n - 1].value {
        case Arr(entries) => CleanIffFixed(entries);
        case _ =>
      }
      assert data == front + [data[n - 1]];
    }
  }

  lemma {:induction false} Idempotent(data: Entries)
    ensures Filtered(Filtered(data)) == Filtered(data)
  {
    FilteredIsClean(data);
    CleanIffFixed(Filtered(data));
  }
}
