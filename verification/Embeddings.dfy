/** Embedding alignment: the cosine distance is never negative, so its warping path is a cheapest one. */
module Embeddings {
  import opened Wrappers
  import opened Alignment
  import opened AlignmentPlans

  /** The sum of products over the common length. */
  function Dot(a: seq<real>, b: seq<real>): real {
    if a == [] || b == [] then 0.0 else a[0] * b[0] + Dot(a[1..], b[1..])
  }

  function Square(x: real): real { x * x }

  function Squares(a: seq<real>): (r: real)
    ensures r >= 0.0
  {
    if a == [] then 0.0 else Square(a[0]) + Squares(a[1..])
  }

  /** A square root on the non-negative reals. */
  ghost predicate IsRoot(root: real -> real) {
    forall x | x >= 0.0 :: root(x) >= 0.0 && Square(root(x)) == x
  }

  /** The dot product over the norms; zero when a norm is zero. */
  function Ratio(dot: real, na: real, nb: real): real {
    if na == 0.0 || nb == 0.0 then 0.0 else dot / (na * nb)
  }

  function CosineSimilarity(root: real -> real, a: seq<real>, b: seq<real>): real {
    if a == [] || b == [] then 0.0 else Ratio(Dot(a, b), root(Squares(a)), root(Squares(b)))
  }

  function EmbeddingDistance(root: real -> real): (Unit, Unit) -> real {
    (a: Unit, b: Unit) => 1.0 - CosineSimilarity(root, a.embedding, b.embedding)
  }

  lemma ProductSquare(x: real, y: real)
    ensures Square(x * y) == Square(x) * Square(y)
  {
    assert (x * y) * (x * y) == (x * x) * (y * y);
  }

  lemma SquareOrder(p: real, q: real)
    requires p >= 0.0 && Square(q) <= Square(p)
    ensures q <= p
  {
    var more, sum := q - p, q + p;
    assert Square(q) - Square(p) == more * sum;
    assert more > 0.0 && sum > 0.0 ==> more * sum > 0.0;
  }

  /** One more coordinate on each side. */
  lemma OneCoordinateMore(d: real, s: real, t: real, x: real, y: real)
    requires s >= 0.0 && t >= 0.0 && Square(d) <= s * t
    ensures Square(d + x * y) <= (s + Square(x)) * (t + Square(y))
  {
    var p, q := s * Square(y) + t * Square(x), 2.0 * (d * (x * y));
    CrossTerms(d, s, t, x, y);
    SquareOrder(p, q);
    assert (d + x * y) * (d + x * y) == d * d + q + (x * y) * (x * y);
    ProductSquare(x, y);
    assert (s + Square(x)) * (t + Square(y)) == s * t + p + Square(x) * Square(y);
  }

  lemma CrossTerms(d: real, s: real, t: real, x: real, y: real)
    requires s >= 0.0 && t >= 0.0 && Square(d) <= s * t
    ensures s * Square(y) + t * Square(x) >= 0.0
    ensures Square(2.0 * (d * (x * y))) <= Square(s * Square(y) + t * Square(x))
  {
    var a, b := s * Square(y), t * Square(x);
    NaturalProduct(s, Square(y));
    NaturalProduct(t, Square(x));
    var dd, xy := Square(d), Square(x * y);
    ProductSquare(d, x * y);
    ProductSquare(x, y);
    ProductSquare(2.0, d * (x * y));
    assert dd * xy <= (s * t) * xy;
    Rearranged(s, t, Square(x), Square(y));
    assert a * b == (s * t) * xy;
    FourProducts(a, b);
  }

  lemma NaturalProduct(x: real, y: real)
    requires x >= 0.0 && y >= 0.0
    ensures x * y >= 0.0
  {}

  lemma Rearranged(s: real, t: real, u: real, v: real)
    ensures (s * v) * (t * u) == (s * t) * (u * v)
  {}

  lemma FourProducts(a: real, b: real)
    ensures 4.0 * (a * b) <= Square(a + b)
  {
    assert Square(a + b) - 4.0 * (a * b) == Square(a - b);
  }

  /** Cauchy-Schwarz, over the common length of two vectors. */
  lemma {:induction false} DotIsBounded(a: seq<real>, b: seq<real>)
    ensures Square(Dot(a, b)) <= Squares(a) * Squares(b)
  {
    if a != [] && b != [] {
      DotIsBounded(a[1..], b[1..]);
      OneCoordinateMore(Dot(a[1..], b[1..]), Squares(a[1..]), Squares(b[1..]), a[0], b[0]);
    } else {
      NaturalProduct(Squares(a), Squares(b));
    }
  }

  lemma CosineIsAtMostOne(root: real -> real, a: seq<real>, b: seq<real>)
    requires IsRoot(root)
    ensures CosineSimilarity(root, a, b) <= 1.0
  {
    DotIsBounded(a, b);
    NormsBoundTheRatio(Dot(a, b), root(Squares(a)), root(Squares(b)));
  }

  lemma NormsBoundTheRatio(dot: real, na: real, nb: real)
    requires na >= 0.0 && nb >= 0.0 && Square(dot) <= Square(na) * Square(nb)
    ensures Ratio(dot, na, nb) <= 1.0
  {
    ProductSquare(na, nb);
    NaturalProduct(na, nb);
    SquareOrder(na * nb, dot);
    if na * nb > 0.0 { QuotientAtMostOne(dot, na * nb); }
  }

  lemma QuotientAtMostOne(x: real, y: real)
    requires y > 0.0 && x <= y
    ensures x / y <= 1.0
  {}

  /** The distance is what the dot product leaves of the product of the norms; without a norm it is one. */
  lemma DistanceIsCosine(root: real -> real, a: Unit, b: Unit)
    requires IsRoot(root)
    ensures var d, na, nb :=
              EmbeddingDistance(root)(a, b), root(Squares(a.embedding)), root(Squares(b.embedding));
            if na == 0.0 || nb == 0.0 then d == 1.0
            else d * (na * nb) == na * nb - Dot(a.embedding, b.embedding)
  {
    var na, nb := root(Squares(a.embedding)), root(Squares(b.embedding));
    if na != 0.0 && nb != 0.0 {
      NonZeroNorms(root, a.embedding);
      NonZeroNorms(root, b.embedding);
      DistanceTimesNorms(Dot(a.embedding, b.embedding), na * nb);
    }
  }

  lemma NonZeroNorms(root: real -> real, a: seq<real>)
    requires IsRoot(root) && root(Squares(a)) != 0.0
    ensures a != []
  {
    if a == [] {
      assert Square(root(0.0)) == 0.0;
      SquareOrder(0.0, root(0.0));
    }
  }

  lemma DistanceTimesNorms(dot: real, norms: real)
    requires norms != 0.0
    ensures (1.0 - dot / norms) * norms == norms - dot
  {}

  /** The dot product is a sum of products, and the squares are the vector's product with itself. */
  lemma {:induction false} DotAdds(a: seq<real>, b: seq<real>, x: real, y: real)
    ensures Dot([], b) == 0.0 && Dot(a, []) == 0.0
    ensures Dot([x] + a, [y] + b) == x * y + Dot(a, b)
    ensures Squares(a) == Dot(a, a)
  {
    assert ([x] + a)[1..] == a && ([y] + b)[1..] == b;
    if a != [] { DotAdds(a[1..], b, x, y); }
  }

  /** Embedding alignment: a cheapest path by cosine distance, with no unit of either side left over. */
  method AlignEmbeddings(left: seq<Unit>, right: seq<Unit>, suffix: Suffix, root: real -> real)
    returns (r: Result<Plan, IndexError>, ghost path: Path)
    requires IsRoot(root)
    ensures r.Failure? <==> (left == []) != (right == [])
    ensures left != [] && right != [] ==>
              && Optimal(DistanceMatrix(left, right, EmbeddingDistance(root)), |left|, |right|, path)
              && r.value.pairs == PairsOf(left, right, path)
              && r.value.omissions == [] && r.value.additions == []
  {
    path := [];
    var distance := EmbeddingDistance(root);
    var found := DtwPath(left, right, distance);
    if found.Failure? {
      return Failure(found.error), path;
    }
    path := found.value;
    forall i, j | 0 <= i < |left| && 0 <= j < |right| ensures DistanceMatrix(left, right, distance)[i][j] >= 0.0 {
      CosineIsAtMostOne(root, left[i].embedding, right[j].embedding);
    }
    var plan := BuildPlan(left, right, found.value, suffix);
    if left != [] && right != [] { NothingLeftOver(left, right, path); }
    r := Success(plan);
  }
}
