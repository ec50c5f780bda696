/** What a score means: the law of cosines, and the hits as the nearest rows. */
module VectorGeometry {
  import opened VectorSearch

  function Minus(a: Vector, b: Vector): (d: Vector)
    requires |a| == |b|
    ensures |d| == |a|
  {
    if a == [] then [] else [a[0] - b[0]] + Minus(a[1..], b[1..])
  }

  /** The squared distance of two vectors. */
  function Distance(a: Vector, b: Vector): real
    requires |a| == |b|
  {
    SumSquares(Minus(a, b))
  }

  lemma SquareOfMinus(x: real, y: real)
    ensures (x - y) * (x - y) == x * x + y * y - 2.0 * (x * y)
  {
  }

  lemma SumSquaresCons(x: real, a: Vector)
    ensures SumSquares([x] + a) == x * x + SumSquares(a)
  {
    assert ([x] + a)[1..] == a;
  }

  /** The squared distance, told by products alone. */
  ghost predicate Told(d: real, p: real, q: real, dot: real) {
    d == p + q - 2.0 * dot
  }

  lemma ToldSum(d: real, p: real, q: real, dot: real, x: real, y: real)
    requires Told(d, p, q, dot)
    ensures Told((x - y) * (x - y) + d, x * x + p, y * y + q, x * y + dot)
  {
    SquareOfMinus(x, y);
  }

  lemma {:induction false} DistanceIsTold(a: Vector, b: Vector)
    requires |a| == |b|
    ensures Told(Distance(a, b), SumSquares(a), SumSquares(b), Dot(a, b))
  {
    if a != [] {
      var d := Minus(a[1..], b[1..]);
      DistanceIsTold(a[1..], b[1..]);
      SumSquaresCons(a[0] - b[0], d);
      ToldSum(SumSquares(d), SumSquares(a[1..]), SumSquares(b[1..]), Dot(a[1..], b[1..]), a[0], b[0]);
    }
  }

  lemma {:induction false} DotSymmetric(a: Vector, b: Vector)
    requires |a| == |b|
    ensures Dot(a, b) == Dot(b, a)
  {
    if a != [] {
      DotSymmetric(a[1..], b[1..]);
    }
  }

  lemma RootsAreEqual(x: real, y: real, p: real)
    requires Root(x, p) && Root(y, p)
    ensures x == y
  {
    if x > y {
      ScaledUp(x, y);
    } else if y > x {
      ScaledUp(y, x);
    }
  }

  lemma ScaledUp(x: real, y: real)
    requires x > y >= 0.0
    ensures x * x > y * y
  {
    StrictScale(x, y, x + y);
    assert x * (x + y) == x * x + x * y;
    assert y * (x + y) == x * y + y * y;
  }

  lemma NormalizedTimes(dot: real, x: real, y: real)
    requires x == 0.0 || y == 0.0 ==> dot == 0.0
    ensures (x * y) * Normalized(dot, x, y) == dot
  {
    if x != 0.0 && y != 0.0 {
      NonZeroProduct(x, y);
      var n := x * y;
      assert n * (dot / n) == dot;
    }
  }

  lemma NonZeroProduct(x: real, y: real)
    requires x != 0.0 && y != 0.0
    ensures x * y != 0.0
  {
  }

  /** The score times both lengths is the product of the vectors. */
  lemma ScoreTimesLengths(a: Vector, b: Vector, sqrt: real -> real, x: real, y: real)
    requires IsSqrt(sqrt) && |a| == |b| && Root(x, SumSquares(a)) && Root(y, SumSquares(b))
    ensures (x * y) * Cosine(a, b, sqrt) == Dot(a, b)
  {
    if a != [] {
      SumSquaresNonNegative(a);
      SumSquaresNonNegative(b);
      SqrtIsRoot(sqrt, SumSquares(a));
      SqrtIsRoot(sqrt, SumSquares(b));
      RootsAreEqual(x, sqrt(SumSquares(a)), SumSquares(a));
      RootsAreEqual(y, sqrt(SumSquares(b)), SumSquares(b));
      if x == 0.0 {
        ZeroSquares(b, a);
        DotSymmetric(a, b);
      }
      if y == 0.0 {
        ZeroSquares(a, b);
      }
      NormalizedTimes(Dot(a, b), x, y);
    }
  }

  /** The law of cosines: the squared distance of two vectors, from their lengths and their
      score. */
  lemma LawOfCosines(a: Vector, b: Vector, sqrt: real -> real, x: real, y: real)
    requires IsSqrt(sqrt) && |a| == |b|
    requires x >= 0.0 && x * x == SumSquares(a) && y >= 0.0 && y * y == SumSquares(b)
    ensures Distance(a, b) == x * x + y * y - 2.0 * ((x * y) * Cosine(a, b, sqrt))
  {
    ScoreTimesLengths(a, b, sqrt, x, y);
    DistanceIsTold(a, b);
  }

  /** Without a length or with another dimension there is no score. */
  lemma NothingScoresZero(a: Vector, b: Vector, sqrt: real -> real)
    requires IsSqrt(sqrt) && (|a| != |b| || SumSquares(a) == 0.0 || SumSquares(b) == 0.0)
    ensures Cosine(a, b, sqrt) == 0.0
  {
    if |a| == |b| && a != [] {
      SumSquaresNonNegative(a);
      SumSquaresNonNegative(b);
      SqrtIsRoot(sqrt, SumSquares(a));
      SqrtIsRoot(sqrt, SumSquares(b));
      if SumSquares(a) == 0.0 {
        RootsAreEqual(0.0, sqrt(SumSquares(a)), SumSquares(a));
      } else {
        RootsAreEqual(0.0, sqrt(SumSquares(b)), SumSquares(b));
      }
    }
  }

  lemma Nearer(d: real, e: real, base: real, n: real, s: real, t: real)
    requires n > 0.0 && d == base - 2.0 * (n * s) && e == base - 2.0 * (n * t)
    ensures s >= t <==> d <= e
  {
    if s >= t {
      Scale(s, t, n);
    } else {
      StrictScale(t, s, n);
    }
  }

  lemma NearerBy(d: real, e: real, x: real, y: real, s: real, t: real)
    requires x > 0.0 && y > 0.0
    requires d == x * x + y * y - 2.0 * ((x * y) * s) && e == x * x + y * y - 2.0 * ((x * y) * t)
    ensures s >= t <==> d <= e
  {
    Nearer(d, e, x * x + y * y, x * y, s, t);
  }

  lemma PositiveLength(a: Vector, sqrt: real -> real) returns (x: real)
    requires IsSqrt(sqrt) && SumSquares(a) != 0.0
    ensures x > 0.0 && x * x == SumSquares(a)
  {
    SumSquaresNonNegative(a);
    SqrtIsRoot(sqrt, SumSquares(a));
    x := sqrt(SumSquares(a));
    assert x != 0.0;
  }

  /** Between two vectors of the same length, which is not zero, the one that scores higher
      against a query that is not zero is the nearer one. */
  lemma HigherIsNearer(q: Vector, a: Vector, b: Vector, sqrt: real -> real)
    requires IsSqrt(sqrt) && |a| == |q| == |b|
    requires SumSquares(q) != 0.0 && SumSquares(a) == SumSquares(b) != 0.0
    ensures Cosine(q, a, sqrt) >= Cosine(q, b, sqrt) <==> Distance(q, a) <= Distance(q, b)
  {
    var x := PositiveLength(q, sqrt);
    var y := PositiveLength(a, sqrt);
    LawOfCosines(q, a, sqrt, x, y);
    LawOfCosines(q, b, sqrt, x, y);
    NearerBy(Distance(q, a), Distance(q, b), x, y, Cosine(q, a, sqrt), Cosine(q, b, sqrt));
  }

  /** All rows have vectors of the same dimension and the same length. */
  predicate Uniform(rows: seq<Row>, dim: nat, p: real) {
    forall r | r in rows :: |r.vec| == dim && SumSquares(r.vec) == p
  }

  /** Over rows of the same length, the hits are the nearest rows: a row that is left out is
      no nearer to the query than any hit, and of those equally near the hit is the earlier. */
  lemma HitsAreNearest(rows: seq<Row>, q: Vector, sqrt: real -> real, topK: nat, p: real, i: nat, k: nat)
    requires IsSqrt(sqrt) && Uniform(rows, |q|, p) && p != 0.0 && SumSquares(q) != 0.0
    requires i < |rows| && |Ranking(rows, q, sqrt)| == |rows| && k < HitCount(rows, topK)
    requires forall j | 0 <= j < HitCount(rows, topK) :: Ranking(rows, q, sqrt)[j].index != i
    ensures var hit := Ranking(rows, q, sqrt)[k].index;
            && hit < |rows| && |rows[hit].vec| == |rows[i].vec| == |q|
            && Distance(q, rows[hit].vec) <= Distance(q, rows[i].vec)
            && (Distance(q, rows[hit].vec) == Distance(q, rows[i].vec) ==> hit < i)
  {
    var s := Ranking(rows, q, sqrt)[k];
    RankingShape(rows, q, sqrt);
    HitsAreBest(rows, q, sqrt, topK, i);
    assert s in Ranking(rows, q, sqrt);
    assert Outranks(s, Scored(Cosine(q, rows[i].vec, sqrt), i));
    assert rows[s.index] in rows && rows[i] in rows;
    HigherIsNearer(q, rows[s.index].vec, rows[i].vec, sqrt);
    HigherIsNearer(q, rows[i].vec, rows[s.index].vec, sqrt);
  }
}
