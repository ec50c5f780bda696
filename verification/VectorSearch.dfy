/** Ranking indexed chunks against a query vector: `query_index` and `cosine_similarity`,
    over exact real numbers. */
module VectorSearch {
  import opened Sequences
  import opened Sorting
  import opened Wrappers

  type Vector = seq<real>

  // ----- Cosine similarity -----

  function Dot(a: Vector, b: Vector): real
    requires |a| == |b|
  {
    if a == [] then 0.0 else a[0] * b[0] + Dot(a[1..], b[1..])
  }

  function SumSquares(a: Vector): real {
    Dot(a, a)
  }

  /** A square root on the numbers that have one. */
  ghost predicate IsSqrt(sqrt: real -> real) {
    forall x | x >= 0.0 :: sqrt(x) >= 0.0 && sqrt(x) * sqrt(x) == x
  }

  function Cosine(a: Vector, b: Vector, sqrt: real -> real): real {
    if |a| != |b| || a == [] then 0.0
    else Normalized(Dot(a, b), sqrt(SumSquares(a)), sqrt(SumSquares(b)))
  }

  function Normalized(dot: real, na: real, nb: real): real {
    if na == 0.0 || nb == 0.0 then 0.0 else dot / (na * nb)
  }

  ghost predicate Root(r: real, x: real) {
    r >= 0.0 && r * r == x
  }

  lemma SqrtIsRoot(sqrt: real -> real, x: real)
    requires IsSqrt(sqrt) && x >= 0.0
    ensures Root(sqrt(x), x)
  {
  }

  lemma SquareNonNegative(x: real)
    ensures x * x >= 0.0
  {
  }

  lemma SquarePositive(x: real)
    requires x != 0.0
    ensures x * x > 0.0
  {
    if x > 0.0 {
      StrictScale(x, 0.0, x);
    } else {
      StrictScale(-x, 0.0, -x);
    }
  }

  lemma StrictScale(x: real, y: real, q: real)
    requires q > 0.0 && x > y
    ensures x * q > y * q
  {
  }

  lemma SquareOfDifference(x: real, y: real, t: real)
    ensures AboveZero(x * x, x * y, y * y, t)
  {
    SquareNonNegative(x - t * y);
  }

  /** The squared length of a - t b, which is not negative. */
  lemma {:induction false} DifferenceNonNegative(a: Vector, b: Vector, t: real)
    requires |a| == |b|
    ensures AboveZero(SumSquares(a), Dot(a, b), SumSquares(b), t)
  {
    var above := (p, d, q) => AboveZero(p, d, q, t);
    forall x, y ensures above(Times(x, x), Times(x, y), Times(y, y)) {
      SquareOfDifference(x, y, t);
    }
    forall p, d, q, p', d', q' | above(p, d, q) && above(p', d', q') ensures above(p + p', d + d', q + q') {
      AboveZeroSum(p, d, q, p', d', q', t);
    }
    SumsKeep(a, b, above);
  }

  function Times(x: real, y: real): real {
    x * y
  }

  /** What holds of the products of any two numbers and is kept by sums holds of vectors. */
  lemma {:induction false} SumsKeep(a: Vector, b: Vector, above: (real, real, real) -> bool)
    requires |a| == |b| && above(0.0, 0.0, 0.0)
    requires forall x, y :: above(Times(x, x), Times(x, y), Times(y, y))
    requires forall p, d, q, p', d', q' :: above(p, d, q) && above(p', d', q') ==> above(p + p', d + d', q + q')
    ensures above(SumSquares(a), Dot(a, b), SumSquares(b))
  {
    if a != [] {
      SumsKeep(a[1..], b[1..], above);
      assert above(Times(a[0], a[0]), Times(a[0], b[0]), Times(b[0], b[0]));
    }
  }

  lemma AboveZeroSum(p: real, d: real, q: real, p': real, d': real, q': real, t: real)
    requires AboveZero(p, d, q, t) && AboveZero(p', d', q', t)
    ensures AboveZero(p + p', d + d', q + q', t)
  {
    Distribute(t, d, d');
    Distribute(t * t, q, q');
  }

  /** The quadratic p - 2 d t + q t t at `t` is not negative. */
  ghost predicate AboveZero(p: real, d: real, q: real, t: real) {
    p - 2.0 * t * d + t * t * q >= 0.0
  }

  lemma Distribute(t: real, x: real, y: real)
    ensures t * (x + y) == t * x + t * y
    ensures 2.0 * t * (x + y) == 2.0 * t * x + 2.0 * t * y
  {
  }

  lemma {:induction false} SumSquaresNonNegative(a: Vector)
    ensures SumSquares(a) >= 0.0
  {
    if a != [] {
      SumSquaresNonNegative(a[1..]);
      SquareNonNegative(a[0]);
    }
  }

  lemma {:induction false} ZeroSquares(a: Vector, b: Vector)
    requires |a| == |b| && SumSquares(b) == 0.0
    ensures Dot(a, b) == 0.0
  {
    if a != [] {
      SumSquaresNonNegative(b[1..]);
      SquareNonNegative(b[0]);
      if b[0] != 0.0 {
        SquarePositive(b[0]);
      }
      ZeroSquares(a[1..], b[1..]);
    }
  }

  lemma Discriminant(p: real, d: real, q: real)
    requires q > 0.0 && AboveZero(p, d, q, d / q)
    ensures d * d <= p * q
  {
    var t := d / q;
    assert t * q == d;
    assert t * t * q == t * d;
    assert p - t * d >= 0.0;
    Scale(p, t * d, q);
    assert t * d * q == d * d;
  }

  lemma Scale(x: real, y: real, q: real)
    requires q > 0.0 && x >= y
    ensures x * q >= y * q
  {
  }

  /** The two facts about a pair of vectors that bound their product. */
  lemma SquaredProductBound(p: real, d: real, q: real)
    requires q >= 0.0 && (q == 0.0 ==> d == 0.0)
    requires q > 0.0 ==> AboveZero(p, d, q, d / q)
    ensures Bounded(d, p, q)
  {
    if q > 0.0 {
      Discriminant(p, d, q);
    }
  }

  ghost predicate Bounded(d: real, p: real, q: real) {
    d * d <= p * q
  }

  /** The Cauchy-Schwarz inequality, for vectors of any length. */
  lemma CauchySchwarz(a: Vector, b: Vector)
    requires |a| == |b|
    ensures Bounded(Dot(a, b), SumSquares(a), SumSquares(b))
  {
    SumSquaresNonNegative(b);
    if SumSquares(b) == 0.0 {
      ZeroSquares(a, b);
    } else {
      DifferenceNonNegative(a, b, Dot(a, b) / SumSquares(b));
    }
    SquaredProductBound(SumSquares(a), Dot(a, b), SumSquares(b));
  }

  lemma NotAbove(d: real, n: real)
    requires n > 0.0 && d * d <= n * n
    ensures d <= n
  {
    if d > n {
      StrictScale(d, n, n);
      StrictScale(d, n, d);
    }
  }

  lemma QuotientNotAbove(d: real, n: real)
    requires n > 0.0 && d <= n
    ensures d / n <= 1.0
  {
    var q := d / n;
    assert q * n == d;
    if q > 1.0 {
      StrictScale(q, 1.0, n);
    }
  }

  lemma Between(d: real, n: real)
    requires n > 0.0 && d * d <= n * n
    ensures -1.0 <= d / n <= 1.0
  {
    NotAbove(d, n);
    assert (-d) * (-d) == d * d;
    NotAbove(-d, n);
    QuotientNotAbove(d, n);
    QuotientNotAbove(-d, n);
    Negated(d, n);
  }

  lemma Negated(d: real, n: real)
    requires n != 0.0
    ensures (-d) / n == -(d / n)
  {
  }

  lemma SelfQuotient(x: real)
    requires x != 0.0
    ensures x / x == 1.0
  {
  }

  /** A score lies between -1 and 1. */
  lemma CosineBounded(a: Vector, b: Vector, sqrt: real -> real)
    requires IsSqrt(sqrt)
    ensures -1.0 <= Cosine(a, b, sqrt) <= 1.0
  {
    if |a| == |b| && a != [] {
      SumSquaresNonNegative(a);
      SumSquaresNonNegative(b);
      SqrtIsRoot(sqrt, SumSquares(a));
      SqrtIsRoot(sqrt, SumSquares(b));
      CauchySchwarz(a, b);
      NormalizedBounded(Dot(a, b), sqrt(SumSquares(a)), sqrt(SumSquares(b)), SumSquares(a), SumSquares(b));
    }
  }

  lemma NormalizedBounded(d: real, x: real, y: real, p: real, q: real)
    requires Root(x, p) && Root(y, q) && Bounded(d, p, q)
    ensures -1.0 <= Normalized(d, x, y) <= 1.0
  {
    if x != 0.0 && y != 0.0 {
      ProductOfSquares(x, y);
      Between(d, x * y);
    }
  }

  lemma ProductOfSquares(x: real, y: real)
    requires x > 0.0 && y > 0.0
    ensures (x * y) * (x * y) == (x * x) * (y * y) && x * y > 0.0
  {
    assert (x * y) * (x * y) == x * (y * (x * y));
    assert y * (x * y) == x * (y * y);
  }

  /** A vector that is not zero scores 1 against itself, the best there is. */
  lemma CosineSelf(a: Vector, sqrt: real -> real)
    requires IsSqrt(sqrt) && SumSquares(a) != 0.0
    ensures Cosine(a, a, sqrt) == 1.0
  {
    SumSquaresNonNegative(a);
    SqrtIsRoot(sqrt, SumSquares(a));
    NormalizedSelf(sqrt(SumSquares(a)), SumSquares(a));
  }

  lemma NormalizedSelf(x: real, p: real)
    requires Root(x, p) && p != 0.0
    ensures Normalized(p, x, x) == 1.0
  {
    assert x != 0.0;
    SelfQuotient(p);
  }

  // ----- The best rows -----

  datatype Row = Row(path: string, text: string, vec: Vector)

  datatype Hit = Hit(path: string, snippet: string, score: real)

  datatype Scored = Scored(score: real, index: nat)

  const MAX_HITS := 64
  const SNIPPET_CHARS := 480

  function Snippet(s: string): string {
    if |s| <= SNIPPET_CHARS then s else s[..SNIPPET_CHARS] + "\U{2026}"
  }

  /** The text, or its first characters and an ellipsis. */
  predicate Shortens(t: string, s: string) {
    if |s| <= SNIPPET_CHARS then t == s
    else |t| == SNIPPET_CHARS + 1 && t[..SNIPPET_CHARS] <= s && t[SNIPPET_CHARS] == '\U{2026}'
  }

  predicate HigherScore(a: Scored, b: Scored) {
    a.score >= b.score
  }

  function ScoresFrom(rows: seq<Row>, q: Vector, sqrt: real -> real, from: nat): seq<Scored>
    requires from <= |rows|
    decreases |rows| - from
  {
    if from == |rows| then []
    else [Scored(Cosine(q, rows[from].vec, sqrt), from)] + ScoresFrom(rows, q, sqrt, from + 1)
  }

  function Ranking(rows: seq<Row>, q: Vector, sqrt: real -> real): seq<Scored> {
    Sort(ScoresFrom(rows, q, sqrt, 0), HigherScore)
  }

  function HitCount(rows: seq<Row>, topK: nat): nat {
    var top := if topK <= MAX_HITS then topK else MAX_HITS;
    if top <= |rows| then top else |rows|
  }

  datatype QueryError = EmbeddingFailed | NoQueryEmbedding | DimensionMismatch(expected: nat, got: nat)

  datatype QueryResponse = QueryResponse(hits: seq<Hit>, phase: string)

  /** As many as asked for, but no more than there are and than are ever given. */
  predicate EnoughHits(n: nat, rows: nat, topK: nat) {
    && n <= topK && n <= MAX_HITS && n <= rows
    && (n == topK || n == MAX_HITS || n == rows)
  }

  /** These are the hits for a query vector: the first rows of the ranking. */
  ghost predicate AreHits(hits: seq<Hit>, rows: seq<Row>, q: Vector, topK: nat, sqrt: real -> real) {
    && |hits| == HitCount(rows, topK) && EnoughHits(|hits|, |rows|, topK) && |Ranking(rows, q, sqrt)| == |rows|
    && forall k | 0 <= k < |hits| ::
         var s := Ranking(rows, q, sqrt)[k];
         && s.index < |rows| && hits[k].path == rows[s.index].path && hits[k].score == s.score
         && Shortens(hits[k].snippet, rows[s.index].text)
  }

  /** The answer over these rows: nothing, a mismatch of the dimensions, or the hits. */
  ghost predicate IsAnswer(r: Result<QueryResponse, QueryError>, rows: seq<Row>, q: Vector, topK: nat, sqrt: real -> real) {
    if rows == [] then r == Ok(QueryResponse([], "1-sqlite-empty"))
    else if |q| != |rows[0].vec| then r == Err(DimensionMismatch(|rows[0].vec|, |q|))
    else r.Ok? && r.value.phase == "1-sqlite" && AreHits(r.value.hits, rows, q, topK, sqrt)
  }

  /** A query of the database, if there is one, with the vectors that the embedding service
      answers for the query text, if it answers. */
  method QueryIndex(db: Option<seq<Row>>, embedded: Option<seq<Vector>>, topK: nat, sqrt: real -> real)
    returns (r: Result<QueryResponse, QueryError>)
    ensures db.None? ==> r == Ok(QueryResponse([], "1-sqlite-no-db"))
    ensures db.Some? && embedded.None? ==> r == Err(EmbeddingFailed)
    ensures db.Some? && embedded == Some([]) ==> r == Err(NoQueryEmbedding)
    ensures db.Some? && embedded.Some? && embedded.value != [] ==> IsAnswer(r, db.value, embedded.value[0], topK, sqrt)
  {
    if db.None? {
      return Ok(QueryResponse([], "1-sqlite-no-db"));
    }
    if embedded.None? {
      return Err(EmbeddingFailed);
    }
    if embedded.value == [] {
      return Err(NoQueryEmbedding);
    }
    var rows, q := db.value, embedded.value[0];
    if rows == [] {
      return Ok(QueryResponse([], "1-sqlite-empty"));
    }
    if |q| != |rows[0].vec| {
      return Err(DimensionMismatch(|rows[0].vec|, |q|));
    }
    var hits := BestHits(rows, q, topK, sqrt);
    return Ok(QueryResponse(hits, "1-sqlite"));
  }

  method BestHits(rows: seq<Row>, q: Vector, topK: nat, sqrt: real -> real) returns (hits: seq<Hit>)
    ensures AreHits(hits, rows, q, topK, sqrt)
  {
    RankingShape(rows, q, sqrt);
    var scored := Ranking(rows, q, sqrt);
    hits := [];
    for k := 0 to HitCount(rows, topK)
      invariant |hits| == k
      invariant forall j | 0 <= j < k ::
                  var s := scored[j];
                  && s.index < |rows| && hits[j].path == rows[s.index].path && hits[j].score == s.score
                  && Shortens(hits[j].snippet, rows[s.index].text)
    {
      var s := scored[k];
      hits := hits + [Hit(rows[s.index].path, Snippet(rows[s.index].text), s.score)];
    }
  }

  /** Before `b` in the ranking: a higher score, or the same one in an earlier row. */
  predicate Outranks(a: Scored, b: Scored) {
    a.score > b.score || (a.score == b.score && a.index < b.index)
  }

  ghost predicate Ranked(xs: seq<Scored>) {
    forall i, j | 0 <= i < j < |xs| :: Outranks(xs[i], xs[j])
  }

  lemma {:induction false} InsertRanks(x: Scored, xs: seq<Scored>)
    requires Ranked(xs) && forall y | y in xs :: x.index < y.index
    ensures Ranked(Insert(x, xs, HigherScore))
  {
    if xs == [] {
    } else if HigherScore(x, xs[0]) {
      RankedCons(x, xs);
    } else {
      var rest := Insert(x, xs[1..], HigherScore);
      InsertRanks(x, xs[1..]);
      InsertMembers(x, xs[1..], HigherScore);
      forall y | y in rest ensures Outranks(xs[0], y) {
        if y != x {
          var j :| 1 <= j < |xs| && xs[j] == y;
        }
      }
      assert Ranked([xs[0]] + rest);
    }
  }

  lemma RankedCons(x: Scored, xs: seq<Scored>)
    requires Ranked(xs) && xs != [] && x.score >= xs[0].score && forall y | y in xs :: x.index < y.index
    ensures Ranked([x] + xs)
  {
    forall i, j | 0 <= i < j < |[x] + xs| ensures Outranks(([x] + xs)[i], ([x] + xs)[j]) {
      assert ([x] + xs)[j] == xs[j - 1] && xs[j - 1] in xs;
      assert j == 1 || Outranks(xs[0], xs[j - 1]);
    }
  }

  /** The score of each row from `from` on, once. */
  ghost predicate AreScores(s: seq<Scored>, rows: seq<Row>, q: Vector, sqrt: real -> real, from: nat) {
    && |s| == |rows| - from
    && forall x :: x in s <==> from <= x.index < |rows| && x.score == Cosine(q, rows[x.index].vec, sqrt)
  }

  lemma {:induction false} ScoresOfRows(rows: seq<Row>, q: Vector, sqrt: real -> real, from: nat)
    requires from <= |rows|
    ensures AreScores(ScoresFrom(rows, q, sqrt, from), rows, q, sqrt, from)
    decreases |rows| - from
  {
    if from < |rows| {
      ScoresOfRows(rows, q, sqrt, from + 1);
      var x, rest := Scored(Cosine(q, rows[from].vec, sqrt), from), ScoresFrom(rows, q, sqrt, from + 1);
      assert forall y :: y in [x] + rest <==> y == x || y in rest;
    }
  }

  lemma {:induction false} ScoresRanked(rows: seq<Row>, q: Vector, sqrt: real -> real, from: nat)
    requires from <= |rows|
    ensures Ranked(Sort(ScoresFrom(rows, q, sqrt, from), HigherScore))
    decreases |rows| - from
  {
    if from < |rows| {
      ScoresRanked(rows, q, sqrt, from + 1);
      ScoresOfRows(rows, q, sqrt, from + 1);
      var x, rest := Scored(Cosine(q, rows[from].vec, sqrt), from), ScoresFrom(rows, q, sqrt, from + 1);
      HeadTail(x, rest, []);
      forall y | y in Sort(rest, HigherScore) ensures x.index < y.index {
        SortMembers(rest, HigherScore, y);
      }
      InsertRanks(x, Sort(rest, HigherScore));
    }
  }

  lemma RankingShape(rows: seq<Row>, q: Vector, sqrt: real -> real)
    ensures var r := Ranking(rows, q, sqrt);
            && |r| == |rows| && Ranked(r)
            && (forall x :: x in r <==> x.index < |rows| && x.score == Cosine(q, rows[x.index].vec, sqrt))
            && (forall k | 0 <= k < |r| :: r[k].index < |rows|)
  {
    var s := ScoresFrom(rows, q, sqrt, 0);
    ScoresRanked(rows, q, sqrt, 0);
    ScoresOfRows(rows, q, sqrt, 0);
    SortKeeps(s, HigherScore);
    forall x ensures x in Sort(s, HigherScore) <==> x in s {
      SortMembers(s, HigherScore, x);
    }
    forall k | 0 <= k < |rows| ensures Ranking(rows, q, sqrt)[k].index < |rows| {
      assert Ranking(rows, q, sqrt)[k] in Ranking(rows, q, sqrt);
    }
  }

  /** The hits are the best rows: every row stands in the ranking once with its own score,
      no row left out scores higher than a hit, and of equal scores the earlier row wins. */
  lemma HitsAreBest(rows: seq<Row>, q: Vector, sqrt: real -> real, topK: nat, i: nat)
    requires i < |rows|
    ensures var r := Ranking(rows, q, sqrt);
            var score := Cosine(q, rows[i].vec, sqrt);
            var n := HitCount(rows, topK);
            && n <= |r|
            && (exists k :: 0 <= k < |r| && r[k] == Scored(score, i))
            && (Scored(score, i) !in r[..n] ==> forall k | 0 <= k < n :: Outranks(r[k], Scored(score, i)))
  {
    RankingShape(rows, q, sqrt);
    var r := Ranking(rows, q, sqrt);
    var x := Scored(Cosine(q, rows[i].vec, sqrt), i);
    var n := HitCount(rows, topK);
    assert x in r;
    var k :| 0 <= k < |r| && r[k] == x;
    if k < n {
      assert r[..n][k] == x;
    }
  }
}
