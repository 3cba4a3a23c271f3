/** Elastic dynamic time warping and the alignment plans built from its paths. */
module Alignment {
  import opened Wrappers

  // ---------------------------------------------------------------------------
  // Warping paths and the cost table
  // ---------------------------------------------------------------------------

  type Cell = (nat, nat)
  type Path = seq<Cell>
  type Matrix = seq<seq<real>>

  datatype IndexError = IndexOutOfRange

  predicate Shaped(d: Matrix, n: nat, m: nat) {
    |d| == n && forall i | 0 <= i < n :: |d[i]| == m
  }

  /** The first row and the first column hold no negative distance; the rest of the matrix may. */
  predicate BorderNonNegative(d: Matrix) {
    forall i, j | 0 <= i < |d| && 0 <= j < |d[i]| && (i == 0 || j == 0) :: d[i][j] >= 0.0
  }

  /** The three elastic moves: one-to-one, many-to-one and one-to-many. */
  predicate Move(a: Cell, b: Cell) {
    b == (a.0 + 1, a.1 + 1) || b == (a.0 + 1, a.1) || b == (a.0, a.1 + 1)
  }

  /** A monotone path from (0,0) to `last`. */
  predicate WarpingPathTo(p: Path, last: Cell) {
    && |p| > 0 && p[0] == (0, 0) && p[|p| - 1] == last
    && forall k | 0 <= k < |p| - 1 :: Move(p[k], p[k + 1])
  }

  predicate InMatrix(p: Path, d: Matrix) {
    forall k | 0 <= k < |p| :: p[k].0 < |d| && p[k].1 < |d[p[k].0]|
  }

  function Total(d: Matrix, p: Path): real
    requires InMatrix(p, d)
  {
    if p == [] then 0.0
    else
      var last := p[|p| - 1];
      Total(d, p[..|p| - 1]) + d[last.0][last.1]
  }

  function Min3(a: real, b: real, c: real): real {
    var ab := if a <= b then a else b;
    if ab <= c then ab else c
  }

  /** Entry (i, j) of the cost table, with its finite border row and column. */
  function Cost(d: Matrix, n: nat, m: nat, i: nat, j: nat): real
    requires Shaped(d, n, m) && 0 < n && 0 < m && i <= n && j <= m
    decreases i + j
  {
    if i == 0 && j == 0 then 0.0
    else if j == 0 then Cost(d, n, m, i - 1, 0) + d[i - 1][0]
    else if i == 0 then Cost(d, n, m, 0, j - 1) + d[0][j - 1]
    else d[i - 1][j - 1] + Min3(Cost(d, n, m, i - 1, j - 1), Cost(d, n, m, i - 1, j), Cost(d, n, m, i, j - 1))
  }

  /** The table position the traceback visits after (i, j), preferring the diagonal. */
  function Before(d: Matrix, n: nat, m: nat, i: nat, j: nat): (b: Cell)
    requires Shaped(d, n, m) && 0 < n && 0 < m && 0 < i <= n && 0 < j <= m
    ensures b.0 <= i && b.1 <= j && b.0 + b.1 < i + j
  {
    var diagonal, up, across := Cost(d, n, m, i - 1, j - 1), Cost(d, n, m, i - 1, j), Cost(d, n, m, i, j - 1);
    var nxt := Min3(diagonal, up, across);
    if nxt == diagonal then (i - 1, j - 1) else if nxt == up then (i - 1, j) else (i, j - 1)
  }

  /** The path read back from table position (i, j), first cell first. */
  function Trace(d: Matrix, n: nat, m: nat, i: nat, j: nat): Path
    requires Shaped(d, n, m) && 0 < n && 0 < m && i <= n && j <= m
    decreases i + j
  {
    if i > 0 && j > 0 then
      var b := Before(d, n, m, i, j);
      Trace(d, n, m, b.0, b.1) + [(i - 1, j - 1)]
    else if i > 0 then Trace(d, n, m, i - 1, 0) + [(i - 1, 0)]
    else if j > 0 then Trace(d, n, m, 0, j - 1) + [(0, j - 1)]
    else []
  }

  /** The matrix cell that table position (i, j) stands for; border positions share a cell. */
  function CellOf(i: nat, j: nat): Cell {
    (if i == 0 then 0 else i - 1, if j == 0 then 0 else j - 1)
  }

  lemma PathInMatrix(p: Path, d: Matrix, n: nat, m: nat, last: Cell)
    requires Shaped(d, n, m) && WarpingPathTo(p, last) && last.0 < n && last.1 < m
    ensures InMatrix(p, d)
    decreases |p|
  {
    if |p| > 1 {
      var q := p[..|p| - 1];
      assert Move(p[|p| - 2], p[|p| - 1]);
      PathInMatrix(q, d, n, m, q[|q| - 1]);
      forall k | 0 <= k < |p| ensures p[k].0 < |d| && p[k].1 < |d[p[k].0]| {
        if k < |q| { assert p[k] == q[k]; }
      }
    }
  }

  /** No warping path is cheaper than the table entry of its last cell. */
  lemma {:induction false} CostIsLowerBound(d: Matrix, n: nat, m: nat, p: Path, last: Cell)
    requires Shaped(d, n, m) && last.0 < n && last.1 < m && WarpingPathTo(p, last)
    requires InMatrix(p, d)
    ensures Cost(d, n, m, last.0 + 1, last.1 + 1) <= Total(d, p)
    decreases |p|
  {
    var q := p[..|p| - 1];
    if |p| == 1 {
      assert Total(d, q) == 0.0;
    } else {
      var before := p[|p| - 2];
      assert Move(before, last);
      assert q[|q| - 1] == before;
      CostIsLowerBound(d, n, m, q, before);
    }
  }

  /** The border column repeats the first interior column, and grows downwards. */
  lemma {:induction false} BorderColumn(d: Matrix, n: nat, m: nat, i: nat)
    requires Shaped(d, n, m) && 0 < n && 0 < m && i <= n && BorderNonNegative(d)
    ensures i > 0 ==> Cost(d, n, m, i, 1) == Cost(d, n, m, i, 0) >= Cost(d, n, m, i - 1, 0)
    ensures Cost(d, n, m, i, 0) >= 0.0
  {
    if i > 0 {
      BorderColumn(d, n, m, i - 1);
      assert d[i - 1][0] >= 0.0;
      if i == 1 { assert Cost(d, n, m, 0, 1) == Cost(d, n, m, 0, 0) + d[0][0]; }
    }
  }

  /** The border row repeats the first interior row, and grows rightwards. */
  lemma {:induction false} BorderRow(d: Matrix, n: nat, m: nat, j: nat)
    requires Shaped(d, n, m) && 0 < n && 0 < m && j <= m && BorderNonNegative(d)
    ensures j > 0 ==> Cost(d, n, m, 1, j) == Cost(d, n, m, 0, j) >= Cost(d, n, m, 0, j - 1)
    ensures Cost(d, n, m, 0, j) >= 0.0
  {
    if j > 0 {
      BorderRow(d, n, m, j - 1);
      assert d[0][j - 1] >= 0.0;
      if j == 1 { assert Cost(d, n, m, 1, 0) == Cost(d, n, m, 0, 0) + d[0][0]; }
    }
  }

  /** On the first interior row and column the traceback steps diagonally. */
  lemma EdgeStepsAreDiagonal(d: Matrix, n: nat, m: nat, i: nat, j: nat)
    requires Shaped(d, n, m) && 0 < i <= n && 0 < j <= m && BorderNonNegative(d)
    requires i == 1 || j == 1
    ensures Before(d, n, m, i, j) == (i - 1, j - 1)
  {
    BorderColumn(d, n, m, i);
    BorderColumn(d, n, m, i - 1);
    BorderRow(d, n, m, j);
    BorderRow(d, n, m, j - 1);
  }

  /** Where the path goes before table position (i, j), on the border too. */
  function Prior(d: Matrix, n: nat, m: nat, i: nat, j: nat): (b: Cell)
    requires Shaped(d, n, m) && 0 < n && 0 < m && i <= n && j <= m && i + j > 0
    ensures b.0 <= i && b.1 <= j && b.0 + b.1 < i + j
  {
    if i > 0 && j > 0 then Before(d, n, m, i, j) else if i > 0 then (i - 1, 0) else (0, j - 1)
  }

  /** One step of the traceback is a legal move and costs exactly its cell. */
  lemma PriorStep(d: Matrix, n: nat, m: nat, i: nat, j: nat)
    requires Shaped(d, n, m) && 0 < n && 0 < m && i <= n && j <= m && BorderNonNegative(d) && i + j > 0
    ensures var b, c := Prior(d, n, m, i, j), CellOf(i, j);
            && c.0 < n && c.1 < m
            && Cost(d, n, m, i, j) == Cost(d, n, m, b.0, b.1) + d[c.0][c.1]
            && (b.0 + b.1 > 0 ==> Move(CellOf(b.0, b.1), c))
            && (b.0 + b.1 == 0 ==> c == (0, 0))
  {
    if i > 0 && j > 0 { InteriorStep(d, n, m, i, j); }
  }

  lemma InteriorStep(d: Matrix, n: nat, m: nat, i: nat, j: nat)
    requires Shaped(d, n, m) && 0 < i <= n && 0 < j <= m && BorderNonNegative(d)
    ensures var b := Before(d, n, m, i, j);
            && Cost(d, n, m, i, j) == Cost(d, n, m, b.0, b.1) + d[i - 1][j - 1]
            && (b.0 + b.1 > 0 ==> Move(CellOf(b.0, b.1), (i - 1, j - 1)))
            && (b.0 + b.1 == 0 ==> (i, j) == (1, 1))
  {
    if i == 1 || j == 1 { EdgeStepsAreDiagonal(d, n, m, i, j); }
  }

  lemma TraceStep(d: Matrix, n: nat, m: nat, i: nat, j: nat)
    requires Shaped(d, n, m) && 0 < n && 0 < m && i <= n && j <= m && i + j > 0
    ensures var b := Prior(d, n, m, i, j);
            Trace(d, n, m, i, j) == Trace(d, n, m, b.0, b.1) + [CellOf(i, j)]
  {}

  lemma ExtendPath(d: Matrix, n: nat, m: nat, q: Path, last: Cell, c: Cell)
    requires Shaped(d, n, m) && c.0 < n && c.1 < m && InMatrix(q, d)
    requires if q == [] then c == (0, 0) else WarpingPathTo(q, last) && Move(last, c)
    ensures InMatrix(q + [c], d) && Total(d, q + [c]) == Total(d, q) + d[c.0][c.1]
    ensures WarpingPathTo(q + [c], c)
  {
    assert (q + [c])[..|q|] == q;
  }

  /** The traceback from (i, j) is a warping path whose total is the table entry. */
  lemma {:induction false} TraceIsAPath(d: Matrix, n: nat, m: nat, i: nat, j: nat)
    requires Shaped(d, n, m) && 0 < n && 0 < m && i <= n && j <= m && BorderNonNegative(d)
    ensures i + j > 0 ==> WarpingPathTo(Trace(d, n, m, i, j), CellOf(i, j))
    ensures InMatrix(Trace(d, n, m, i, j), d)
    ensures Total(d, Trace(d, n, m, i, j)) == Cost(d, n, m, i, j)
    decreases i + j
  {
    if i + j > 0 {
      var b := Prior(d, n, m, i, j);
      TraceIsAPath(d, n, m, b.0, b.1);
      PriorStep(d, n, m, i, j);
      TraceStep(d, n, m, i, j);
      ExtendPath(d, n, m, Trace(d, n, m, b.0, b.1), CellOf(b.0, b.1), CellOf(i, j));
    }
  }

  function DistanceMatrix<U>(left: seq<U>, right: seq<U>, distance: (U, U) -> real): (d: Matrix)
    ensures Shaped(d, |left|, |right|)
    ensures forall i, j | 0 <= i < |left| && 0 <= j < |right| :: d[i][j] == distance(left[i], right[j])
  {
    seq(|left|, i requires 0 <= i < |left| =>
      seq(|right|, j requires 0 <= j < |right| => distance(left[i], right[j])))
  }

  /** A cheapest warping path through all of `d`. */
  ghost predicate Optimal(d: Matrix, n: nat, m: nat, p: Path)
    requires Shaped(d, n, m) && 0 < n && 0 < m
  {
    && WarpingPathTo(p, (n - 1, m - 1)) && InMatrix(p, d)
    && forall q | WarpingPathTo(q, (n - 1, m - 1)) && InMatrix(q, d) :: Total(d, p) <= Total(d, q)
  }

  lemma TraceIsOptimal(d: Matrix, n: nat, m: nat)
    requires Shaped(d, n, m) && 0 < n && 0 < m && BorderNonNegative(d)
    ensures Optimal(d, n, m, Trace(d, n, m, n, m))
    ensures Total(d, Trace(d, n, m, n, m)) == Cost(d, n, m, n, m)
  {
    TraceIsAPath(d, n, m, n, m);
    forall q | WarpingPathTo(q, (n - 1, m - 1)) && InMatrix(q, d)
      ensures Total(d, Trace(d, n, m, n, m)) <= Total(d, q)
    {
      CostIsLowerBound(d, n, m, q, (n - 1, m - 1));
    }
  }

  /** A negative distance on the border breaks the traceback: one unit on each side already yields (0,0) twice. */
  lemma NegativeDistanceRepeatsACell()
    ensures Shaped([[-1.0]], 1, 1)
    ensures Trace([[-1.0]], 1, 1, 1, 1) == [(0, 0), (0, 0)]
    ensures !WarpingPathTo(Trace([[-1.0]], 1, 1, 1, 1), (0, 0))
  {
    var d: Matrix := [[-1.0]];
    assert Shaped(d, 1, 1) && d[0][0] == -1.0;
    assert Cost(d, 1, 1, 0, 0) == 0.0;
    assert Cost(d, 1, 1, 0, 1) == -1.0;
    assert Cost(d, 1, 1, 1, 0) == -1.0;
    assert Before(d, 1, 1, 1, 1) == (0, 1);
    assert Trace(d, 1, 1, 0, 1) == [(0, 0)];
    var p := Trace(d, 1, 1, 1, 1);
    assert p == [(0, 0), (0, 0)];
    assert !Move(p[0], p[1]);
  }

  /** `cost` holds the finished table. */
  ghost predicate Filled(cost: array2<real>, d: Matrix, n: nat, m: nat)
    requires Shaped(d, n, m) && 0 < n && 0 < m
    reads cost
  {
    && cost.Length0 == n + 1 && cost.Length1 == m + 1
    && forall i, j {:trigger cost[i, j]} | 0 <= i <= n && 0 <= j <= m :: cost[i, j] == Cost(d, n, m, i, j)
  }

  /** Fills the border row and column, then the interior row by row. */
  method FillCosts(d: Matrix, n: nat, m: nat) returns (cost: array2<real>)
    requires Shaped(d, n, m) && 0 < n && 0 < m
    ensures fresh(cost) && Filled(cost, d, n, m)
  {
    cost := new real[n + 1, m + 1];
    cost[0, 0] := 0.0;
    for i := 1 to n + 1
      invariant forall k {:trigger cost[k, 0]} | 0 <= k < i :: cost[k, 0] == Cost(d, n, m, k, 0)
    {
      cost[i, 0] := cost[i - 1, 0] + d[i - 1][0];
    }
    for j := 1 to m + 1
      invariant forall k {:trigger cost[k, 0]} | 0 <= k <= n :: cost[k, 0] == Cost(d, n, m, k, 0)
      invariant forall k {:trigger cost[0, k]} | 0 <= k < j :: cost[0, k] == Cost(d, n, m, 0, k)
    {
      cost[0, j] := cost[0, j - 1] + d[0][j - 1];
    }
    for i := 1 to n + 1
      invariant forall k {:trigger cost[k, 0]} | 0 <= k <= n :: cost[k, 0] == Cost(d, n, m, k, 0)
      invariant forall a, b {:trigger cost[a, b]} | 0 <= a < i && 0 <= b <= m :: cost[a, b] == Cost(d, n, m, a, b)
    {
      for j := 1 to m + 1
        invariant forall k {:trigger cost[k, 0]} | 0 <= k <= n :: cost[k, 0] == Cost(d, n, m, k, 0)
        invariant forall a, b {:trigger cost[a, b]} | 0 <= a < i && 0 <= b <= m :: cost[a, b] == Cost(d, n, m, a, b)
        invariant forall b {:trigger cost[i, b]} | 0 <= b < j :: cost[i, b] == Cost(d, n, m, i, b)
      {
        cost[i, j] := d[i - 1][j - 1] + Min3(cost[i - 1, j - 1], cost[i - 1, j], cost[i, j - 1]);
      }
    }
  }

  /** Walks the finished table back from (n, m), ties going to the diagonal first. */
  method ReadBack(cost: array2<real>, ghost d: Matrix, n: nat, m: nat) returns (path: Path)
    requires Shaped(d, n, m) && 0 < n && 0 < m && Filled(cost, d, n, m)
    ensures path == Trace(d, n, m, n, m)
  {
    // `dtw_path` appends and reverses at the end; here each cell goes to the front.
    path := [];
    var i: nat, j: nat := n, m;
    while i > 0 && j > 0
      invariant i <= n && j <= m
      invariant Trace(d, n, m, i, j) + path == Trace(d, n, m, n, m)
      decreases i + j
    {
      TraceStep(d, n, m, i, j);
      ghost var b := Before(d, n, m, i, j);
      Prepended(Trace(d, n, m, b.0, b.1), (i - 1, j - 1), path);
      path := [(i - 1, j - 1)] + path;
      i, j := StepBack(cost, d, n, m, i, j);
    }
    path := ReadBorder(d, n, m, i, j, path);
  }

  /** One step of the walk through the interior. */
  method StepBack(cost: array2<real>, ghost d: Matrix, ghost n: nat, ghost m: nat, i: nat, j: nat)
    returns (i1: nat, j1: nat)
    requires Shaped(d, n, m) && 0 < i <= n && 0 < j <= m && Filled(cost, d, n, m)
    ensures (i1, j1) == Before(d, n, m, i, j)
  {
    var nxt := Min3(cost[i - 1, j - 1], cost[i - 1, j], cost[i, j - 1]);
    if nxt == cost[i - 1, j - 1] {
      i1, j1 := i - 1, j - 1;
    } else if nxt == cost[i - 1, j] {
      i1, j1 := i - 1, j;
    } else {
      i1, j1 := i, j - 1;
    }
  }

  lemma Prepended(before: Path, c: Cell, path: Path)
    ensures before + [c] + path == before + ([c] + path)
  {}

  /** What is left once the walk has reached a border: straight back to (0, 0). */
  method ReadBorder(ghost d: Matrix, ghost n: nat, ghost m: nat, i0: nat, j0: nat, found: Path) returns (path: Path)
    requires Shaped(d, n, m) && 0 < n && 0 < m && i0 <= n && j0 <= m && (i0 == 0 || j0 == 0)
    ensures path == Trace(d, n, m, i0, j0) + found
  {
    path := found;
    var i: nat, j: nat := i0, j0;
    while i > 0
      invariant i <= n && (i == 0 || j == 0)
      invariant Trace(d, n, m, i, j) + path == Trace(d, n, m, i0, j0) + found
    {
      TraceStep(d, n, m, i, j);
      path := [(i - 1, 0)] + path;
      i := i - 1;
    }
    while j > 0
      invariant i == 0 && j <= m
      invariant Trace(d, n, m, i, j) + path == Trace(d, n, m, i0, j0) + found
    {
      TraceStep(d, n, m, i, j);
      path := [(0, j - 1)] + path;
      j := j - 1;
    }
  }

  method DtwPath<U>(left: seq<U>, right: seq<U>, distance: (U, U) -> real)
    returns (r: Result<Path, IndexError>)
    ensures r.Failure? <==> (left == []) != (right == [])
    ensures left == [] && right == [] ==> r == Success([])
    ensures left != [] && right != [] ==>
              r == Success(Trace(DistanceMatrix(left, right, distance), |left|, |right|, |left|, |right|))
    ensures left != [] && right != [] && BorderNonNegative(DistanceMatrix(left, right, distance)) ==>
              Optimal(DistanceMatrix(left, right, distance), |left|, |right|, r.value)
  {
    var n, m := |left|, |right|;
    if n == 0 && m == 0 {
      return Success([]);
    }
    if n == 0 || m == 0 {
      // Filling the border reads row 0 or column 0 of an empty matrix.
      return Failure(IndexOutOfRange);
    }
    var d := DistanceMatrix(left, right, distance);
    var cost := FillCosts(d, n, m);
    var path := ReadBack(cost, d, n, m);
    if BorderNonNegative(d) {
      TraceIsOptimal(d, n, m);
    }
    r := Success(path);
  }
}
