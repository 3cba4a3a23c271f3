/** Alignment plans built from warping paths and from shared scenes. */
module AlignmentPlans {
  import opened Wrappers
  import opened Alignment

  datatype Unit = Unit(ref: string, start: real, end: real, scene: string, embedding: seq<real>) {
    function Mid(): real { (start + end) / 2.0 }
  }

  datatype Pair = Pair(left: string, right: string)

  /** omissions: right units without a partner; additions: left units without one. */
  datatype Plan = Plan(pairs: seq<Pair>, omissions: seq<string>, additions: seq<string>, reordering: bool)

  /** The integer at the end of a ref, when there is one. */
  type Suffix = string -> Option<int>

  function TimecodeDistance(a: Unit, b: Unit): (r: real)
    ensures r >= 0.0 && (r == 0.0 <==> a.Mid() == b.Mid())
  {
    if a.Mid() >= b.Mid() then a.Mid() - b.Mid() else b.Mid() - a.Mid()
  }

  /** A unit moved by `shift` and widened on both sides is `shift` away: only midpoints count. */
  lemma DistanceIsTheShift(a: Unit, shift: real, widen: real)
    ensures var moved := a.(start := a.start + shift - widen, end := a.end + shift + widen);
            TimecodeDistance(a, moved) == TimecodeDistance(moved, a) == if shift >= 0.0 then shift else -shift
  {}

  function PairsOf(left: seq<Unit>, right: seq<Unit>, path: Path): (pairs: seq<Pair>)
    requires forall k | 0 <= k < |path| :: path[k].0 < |left| && path[k].1 < |right|
    ensures |pairs| == |path|
  {
    seq(|path|, k requires 0 <= k < |path| => Pair(left[path[k].0].ref, right[path[k].1].ref))
  }

  /** Two positions of the plan whose sides disagree on which comes first. */
  predicate OutOfOrder(p: Pair, q: Pair, suffix: Suffix) {
    && suffix(p.left).Some? && suffix(q.left).Some? && suffix(p.right).Some? && suffix(q.right).Some?
    && (suffix(p.left).value < suffix(q.left).value) != (suffix(p.right).value < suffix(q.right).value)
  }

  ghost predicate Reordered(pairs: seq<Pair>, suffix: Suffix) {
    exists i, k | 0 <= i < k < |pairs| :: OutOfOrder(pairs[i], pairs[k], suffix)
  }

  method DetectReordering(pairs: seq<Pair>, suffix: Suffix) returns (found: bool)
    ensures found <==> Reordered(pairs, suffix)
  {
    for i := 0 to |pairs|
      invariant forall a, b | 0 <= a < i && a < b < |pairs| :: !OutOfOrder(pairs[a], pairs[b], suffix)
    {
      for k := i + 1 to |pairs|
        invariant forall b | i < b < k :: !OutOfOrder(pairs[i], pairs[b], suffix)
      {
        if OutOfOrder(pairs[i], pairs[k], suffix) {
          return true;
        }
      }
    }
    return false;
  }

  /** The refs of the units whose index is not in `used`, in list order. */
  function Unused(units: seq<Unit>, used: set<nat>): seq<string> {
    if units == [] then []
    else
      var rest := Unused(units[..|units| - 1], used);
      if |units| - 1 in used then rest else rest + [units[|units| - 1].ref]
  }

  lemma {:induction false} NothingUnused(units: seq<Unit>, used: set<nat>)
    ensures Unused(units, used) == [] <==> forall i: nat | i < |units| :: i in used
  {
    if units != [] {
      NothingUnused(units[..|units| - 1], used);
      if forall i: nat | i < |units| - 1 :: i in used {
        if |units| - 1 in used {
          forall i: nat | i < |units| ensures i in used {}
        }
      }
    }
  }

  function Lefts(p: Path): set<nat> { set c | c in p :: c.0 }

  function Rights(p: Path): set<nat> { set c | c in p :: c.1 }

  method BuildPlan(left: seq<Unit>, right: seq<Unit>, path: Path, suffix: Suffix) returns (plan: Plan)
    requires forall k | 0 <= k < |path| :: path[k].0 < |left| && path[k].1 < |right|
    ensures plan.pairs == PairsOf(left, right, path)
    ensures plan.omissions == Unused(right, Rights(path))
    ensures plan.additions == Unused(left, Lefts(path))
    ensures plan.reordering <==> Reordered(plan.pairs, suffix)
  {
    var usedLeft: set<nat>, usedRight: set<nat> := {}, {};
    var pairs: seq<Pair> := [];
    for k := 0 to |path|
      invariant usedLeft == Lefts(path[..k])
      invariant usedRight == Rights(path[..k])
      invariant pairs == PairsOf(left, right, path)[..k]
    {
      assert path[..k + 1] == path[..k] + [path[k]];
      usedLeft := usedLeft + {path[k].0};
      usedRight := usedRight + {path[k].1};
      pairs := pairs + [Pair(left[path[k].0].ref, right[path[k].1].ref)];
    }
    assert path[..|path|] == path;
    var omissions := Leftover(right, usedRight);
    var additions := Leftover(left, usedLeft);
    var reordering := DetectReordering(pairs, suffix);
    plan := Plan(pairs, omissions, additions, reordering);
  }

  method Leftover(units: seq<Unit>, used: set<nat>) returns (refs: seq<string>)
    ensures refs == Unused(units, used)
  {
    refs := [];
    for i := 0 to |units|
      invariant refs == Unused(units[..i], used)
    {
      assert units[..i + 1][..i] == units[..i];
      if i !in used { refs := refs + [units[i].ref]; }
    }
    assert units[..|units|] == units;
  }

  // ---------------------------------------------------------------------------
  // What a warping path says about its plan
  // ---------------------------------------------------------------------------

  /** A warping path rises in both coordinates, weakly at each step and strictly in one. */
  lemma {:induction false} PathRises(p: Path, last: Cell, i: nat, k: nat)
    requires WarpingPathTo(p, last) && i <= k < |p|
    ensures p[i].0 <= p[k].0 && p[i].1 <= p[k].1
    ensures k - i <= (p[k].0 - p[i].0) + (p[k].1 - p[i].1)
    decreases k
  {
    if i < k {
      PathRises(p, last, i, k - 1);
      assert Move(p[k - 1], p[k]);
    }
  }

  /** Every row and every column is visited. */
  lemma {:induction false} PathVisits(p: Path, last: Cell, i: nat, j: nat)
    requires WarpingPathTo(p, last) && i <= last.0 && j <= last.1
    ensures i in Lefts(p)
    ensures j in Rights(p)
    decreases |p|
  {
    assert p[|p| - 1] in p;
    if |p| > 1 && (i < last.0 || j < last.1) {
      var q := p[..|p| - 1];
      var before := p[|p| - 2];
      assert Move(before, p[|p| - 1]) && q[|q| - 1] == before;
      assert forall c | c in q :: c in p;
      PathVisits(q, before, if i <= before.0 then i else before.0, if j <= before.1 then j else before.1);
    }
  }

  /** A complete warping path leaves no unit of either side without a partner. */
  lemma NothingLeftOver(left: seq<Unit>, right: seq<Unit>, p: Path)
    requires left != [] && right != [] && WarpingPathTo(p, (|left| - 1, |right| - 1))
    ensures Unused(left, Lefts(p)) == [] && Unused(right, Rights(p)) == []
  {
    var last := (|left| - 1, |right| - 1);
    forall i: nat | i < |left| ensures i in Lefts(p) { PathVisits(p, last, i, 0); }
    forall j: nat | j < |right| ensures j in Rights(p) { PathVisits(p, last, 0, j); }
    NothingUnused(left, Lefts(p));
    NothingUnused(right, Rights(p));
  }

  ghost predicate AllDiagonal(p: Path) {
    forall k | 0 <= k < |p| - 1 :: p[k + 1] == (p[k].0 + 1, p[k].1 + 1)
  }

  lemma {:induction false} DiagonalRuns(p: Path, last: Cell, i: nat, k: nat)
    requires WarpingPathTo(p, last) && AllDiagonal(p) && i <= k < |p|
    ensures p[k] == (p[i].0 + (k - i), p[i].1 + (k - i))
    decreases k
  {
    if i < k { DiagonalRuns(p, last, i, k - 1); }
  }

  ghost predicate Numbered(units: seq<Unit>, suffix: Suffix) {
    forall i | 0 <= i < |units| :: suffix(units[i].ref) == Some(i)
  }

  /** With refs numbered by list position the flag is down exactly on a diagonal path. */
  lemma ReorderingIsNonDiagonal(left: seq<Unit>, right: seq<Unit>, p: Path, suffix: Suffix)
    requires left != [] && right != [] && WarpingPathTo(p, (|left| - 1, |right| - 1))
    requires forall k | 0 <= k < |p| :: p[k].0 < |left| && p[k].1 < |right|
    requires Numbered(left, suffix) && Numbered(right, suffix)
    ensures Reordered(PairsOf(left, right, p), suffix) <==> !AllDiagonal(p)
  {
    if AllDiagonal(p) {
      DiagonalIsInOrder(left, right, p, suffix);
    } else {
      var k: nat :| k < |p| - 1 && p[k + 1] != (p[k].0 + 1, p[k].1 + 1);
      SidewaysIsOutOfOrder(left, right, p, suffix, k);
    }
  }

  lemma DiagonalIsInOrder(left: seq<Unit>, right: seq<Unit>, p: Path, suffix: Suffix)
    requires left != [] && right != [] && WarpingPathTo(p, (|left| - 1, |right| - 1)) && AllDiagonal(p)
    requires forall k | 0 <= k < |p| :: p[k].0 < |left| && p[k].1 < |right|
    requires Numbered(left, suffix) && Numbered(right, suffix)
    ensures !Reordered(PairsOf(left, right, p), suffix)
  {
    var pairs := PairsOf(left, right, p);
    forall i, k | 0 <= i < k < |pairs| ensures !OutOfOrder(pairs[i], pairs[k], suffix) {
      DiagonalRuns(p, (|left| - 1, |right| - 1), i, k);
    }
  }

  lemma SidewaysIsOutOfOrder(left: seq<Unit>, right: seq<Unit>, p: Path, suffix: Suffix, k: nat)
    requires forall k | 0 <= k < |p| :: p[k].0 < |left| && p[k].1 < |right|
    requires Numbered(left, suffix) && Numbered(right, suffix)
    requires k < |p| - 1 && Move(p[k], p[k + 1]) && p[k + 1] != (p[k].0 + 1, p[k].1 + 1)
    ensures Reordered(PairsOf(left, right, p), suffix)
  {
    var pairs := PairsOf(left, right, p);
    assert OutOfOrder(pairs[k], pairs[k + 1], suffix);
  }

  /** Timecode alignment: a cheapest path, with no unit of either side left over. */
  method AlignTimecode(left: seq<Unit>, right: seq<Unit>, suffix: Suffix)
    returns (r: Result<Plan, IndexError>, ghost path: Path)
    ensures r.Failure? <==> (left == []) != (right == [])
    ensures left != [] && right != [] ==>
              && Optimal(DistanceMatrix(left, right, TimecodeDistance), |left|, |right|, path)
              && r.value.pairs == PairsOf(left, right, path)
              && r.value.omissions == [] && r.value.additions == []
    ensures left != [] && right != [] && Numbered(left, suffix) && Numbered(right, suffix) ==>
              (r.value.reordering <==> !AllDiagonal(path))
  {
    path := [];
    var found := DtwPath(left, right, TimecodeDistance);
    if found.Failure? {
      return Failure(found.error), path;
    }
    path := found.value;
    assert BorderNonNegative(DistanceMatrix(left, right, TimecodeDistance));
    var plan := BuildPlan(left, right, found.value, suffix);
    if left != [] && right != [] {
      NothingLeftOver(left, right, path);
      if Numbered(left, suffix) && Numbered(right, suffix) {
        ReorderingIsNonDiagonal(left, right, path, suffix);
      }
    }
    r := Success(plan);
  }

  // ---------------------------------------------------------------------------
  // Scene matching
  // ---------------------------------------------------------------------------

  /** The refs, in order, of the units whose scene occurs on the other side nowhere. */
  function Unmatched(units: seq<Unit>, other: seq<Unit>): seq<string> {
    if units == [] then []
    else
      var rest, u := Unmatched(units[..|units| - 1], other), units[|units| - 1];
      if exists o | o in other :: o.scene == u.scene then rest else rest + [u.ref]
  }

  lemma {:induction false} UnusedIsUnmatched(units: seq<Unit>, other: seq<Unit>, used: set<nat>)
    requires forall i: nat | i < |units| :: i in used <==> exists o | o in other :: o.scene == units[i].scene
    ensures Unused(units, used) == Unmatched(units, other)
  {
    if units != [] {
      var init := units[..|units| - 1];
      forall i: nat | i < |init| ensures i in used <==> exists o | o in other :: o.scene == init[i].scene {
        assert init[i] == units[i];
      }
      UnusedIsUnmatched(init, other, used);
    }
  }

  /** Row by row, each row from left to right. */
  predicate Earlier(a: Cell, b: Cell) { a.0 < b.0 || (a.0 == b.0 && a.1 < b.1) }

  /** The cells of shared scenes, each once, row by row. */
  ghost predicate SharedScenes(left: seq<Unit>, right: seq<Unit>, path: Path) {
    && (forall k | 0 <= k < |path| ::
          path[k].0 < |left| && path[k].1 < |right| && left[path[k].0].scene == right[path[k].1].scene)
    && (forall i, j | 0 <= i < |left| && 0 <= j < |right| && left[i].scene == right[j].scene :: (i, j) in path)
    && (forall k, l | 0 <= k < l < |path| :: Earlier(path[k], path[l]))
  }

  method SharedCells(left: seq<Unit>, right: seq<Unit>) returns (path: Path)
    ensures SharedScenes(left, right, path)
  {
    path := [];
    for i := 0 to |left|
      invariant SharedRows(left, right, path, i)
    {
      var row := SharedRow(left, right, i);
      path := path + row;
    }
  }

  /** The cells of shared scenes in the first `rows` rows. */
  ghost predicate SharedRows(left: seq<Unit>, right: seq<Unit>, path: Path, rows: nat)
    requires rows <= |left|
  {
    && (forall k | 0 <= k < |path| ::
          path[k].0 < rows && path[k].1 < |right| && left[path[k].0].scene == right[path[k].1].scene)
    && (forall i, j | 0 <= i < rows && 0 <= j < |right| && left[i].scene == right[j].scene :: (i, j) in path)
    && (forall k, l | 0 <= k < l < |path| :: Earlier(path[k], path[l]))
  }

  method SharedRow(left: seq<Unit>, right: seq<Unit>, i: nat) returns (row: Path)
    requires i < |left|
    ensures forall k | 0 <= k < |row| ::
              row[k].0 == i && row[k].1 < |right| && left[i].scene == right[row[k].1].scene
    ensures forall j | 0 <= j < |right| && left[i].scene == right[j].scene :: (i, j) in row
    ensures forall k, l | 0 <= k < l < |row| :: row[k].1 < row[l].1
  {
    row := [];
    for j := 0 to |right|
      invariant forall k | 0 <= k < |row| :: row[k].0 == i && row[k].1 < j && left[i].scene == right[row[k].1].scene
      invariant forall b | 0 <= b < j && left[i].scene == right[b].scene :: (i, b) in row
      invariant forall k, l | 0 <= k < l < |row| :: row[k].1 < row[l].1
    {
      if left[i].scene == right[j].scene {
        row := row + [(i, j)];
        assert row[|row| - 1] == (i, j);
      }
    }
  }

  /** Scene-order alignment pairs exactly the units of shared scenes, row by row, and reports the rest honestly. */
  method AlignSceneOrder(left: seq<Unit>, right: seq<Unit>, suffix: Suffix) returns (plan: Plan, ghost path: Path)
    ensures SharedScenes(left, right, path) && plan.pairs == PairsOf(left, right, path)
    ensures forall i, j | 0 <= i < |left| && 0 <= j < |right| && left[i].scene == right[j].scene ::
              Pair(left[i].ref, right[j].ref) in plan.pairs
    ensures forall q | q in plan.pairs ::
              exists i, j | 0 <= i < |left| && 0 <= j < |right| && left[i].scene == right[j].scene ::
                q == Pair(left[i].ref, right[j].ref)
    ensures plan.omissions == Unmatched(right, left)
    ensures plan.additions == Unmatched(left, right)
    ensures plan.reordering <==> Reordered(plan.pairs, suffix)
  {
    var cells := SharedCells(left, right);
    path := cells;
    plan := BuildPlan(left, right, cells, suffix);
    SharedUnitsAreUsed(left, right, path);
    SharedPairs(left, right, path);
  }

  lemma {:induction false} SharedUnitsAreUsed(left: seq<Unit>, right: seq<Unit>, path: Path)
    requires SharedScenes(left, right, path)
    ensures Unused(left, Lefts(path)) == Unmatched(left, right) && Unused(right, Rights(path)) == Unmatched(right, left)
  {
    var usedLeft, usedRight := Lefts(path), Rights(path);
    forall i: nat | i < |left| ensures i in usedLeft <==> exists o | o in right :: o.scene == left[i].scene {
      if o :| o in right && o.scene == left[i].scene {
        var j :| 0 <= j < |right| && right[j] == o;
        assert (i, j) in path;
      }
    }
    forall j: nat | j < |right| ensures j in usedRight <==> exists o | o in left :: o.scene == right[j].scene {
      if o :| o in left && o.scene == right[j].scene {
        var i :| 0 <= i < |left| && left[i] == o;
        assert (i, j) in path;
      }
    }
    UnusedIsUnmatched(left, right, usedLeft);
    UnusedIsUnmatched(right, left, usedRight);
  }

  lemma SharedPairs(left: seq<Unit>, right: seq<Unit>, path: Path)
    requires SharedScenes(left, right, path)
    ensures var pairs := PairsOf(left, right, path);
            && (forall i, j | 0 <= i < |left| && 0 <= j < |right| && left[i].scene == right[j].scene ::
                  Pair(left[i].ref, right[j].ref) in pairs)
            && (forall q | q in pairs ::
                  exists i, j | 0 <= i < |left| && 0 <= j < |right| && left[i].scene == right[j].scene ::
                    q == Pair(left[i].ref, right[j].ref))
  {
    var pairs := PairsOf(left, right, path);
    forall i, j | 0 <= i < |left| && 0 <= j < |right| && left[i].scene == right[j].scene
      ensures Pair(left[i].ref, right[j].ref) in pairs
    {
      assert (i, j) in path;
      var k :| 0 <= k < |path| && path[k] == (i, j);
      assert pairs[k] == Pair(left[i].ref, right[j].ref);
    }
    forall q | q in pairs
      ensures exists i, j | 0 <= i < |left| && 0 <= j < |right| && left[i].scene == right[j].scene ::
                q == Pair(left[i].ref, right[j].ref)
    {
      var k :| 0 <= k < |pairs| && pairs[k] == q;
      assert left[path[k].0].scene == right[path[k].1].scene;
    }
  }
}
