/** Edit distance: the two-row computation of `levenshtein_distance`, what it means, and
    that it is a metric. */
module Levenshtein {
  import opened Sequences

  function Least(x: nat, y: nat, z: nat): nat {
    if x <= y && x <= z then x else if y <= z then y else z
  }

  function SubstitutionCost(c: char, d: char): nat { if c == d then 0 else 1 }

  /** The distance between the first `i` characters of `a` and the first `j` of `b`. */
  function Cell(a: string, b: string, i: nat, j: nat): nat
    requires i <= |a| && j <= |b|
    decreases i + j
  {
    if i == 0 then j
    else if j == 0 then i
    else
      Least(Cell(a, b, i, j - 1) + 1, Cell(a, b, i - 1, j) + 1,
            Cell(a, b, i - 1, j - 1) + SubstitutionCost(a[i - 1], b[j - 1]))
  }

  function Distance(a: string, b: string): nat {
    Cell(a, b, |a|, |b|)
  }

  method LevenshteinDistance(left: string, right: string) returns (d: nat)
    ensures d == Distance(left, right)
  {
    if left == right {
      SameIsZero(left, |left|);
      return 0;
    }
    if left == "" {
      return |right|;
    }
    if right == "" {
      return |left|;
    }
    var n := |right|;
    var previous := new nat[n + 1](j => j);
    var current := new nat[n + 1](_ => 0);
    for i := 0 to |left|
      invariant IsRow(previous[..], left, right, i)
    {
      FillRow(previous, current, left, right, i);
      forall j | 0 <= j <= n {
        previous[j] := current[j];
      }
      assert previous[..] == current[..];
    }
    return previous[n];
  }

  /** A whole row of distances: the first `i` characters of `a` against every prefix of `b`. */
  ghost predicate IsRow(row: seq<nat>, a: string, b: string, i: nat)
    requires i <= |a|
  {
    |row| == |b| + 1 && forall j | 0 <= j <= |b| :: row[j] == Cell(a, b, i, j)
  }

  lemma NextCell(row: seq<nat>, a: string, b: string, i: nat, j: nat)
    requires i < |a| && j < |b| && IsRow(row, a, b, i)
    ensures |row| == |b| + 1
    ensures Cell(a, b, i + 1, j + 1) == Least(Cell(a, b, i + 1, j) + 1, row[j + 1] + 1, row[j] + SubstitutionCost(a[i], b[j]))
  {
  }

  /** The inner loop: the row of character `i`, from the row before it. */
  method FillRow(previous: array<nat>, current: array<nat>, left: string, right: string, i: nat)
    requires i < |left| && previous != current && current.Length == |right| + 1
    requires IsRow(previous[..], left, right, i)
    modifies current
    ensures IsRow(current[..], left, right, i + 1)
  {
    current[0] := i + 1;
    for j := 0 to |right|
      invariant forall k | 0 <= k <= j :: current[k] == Cell(left, right, i + 1, k)
    {
      var cost := SubstitutionCost(left[i], right[j]);
      NextCell(previous[..], left, right, i, j);
      current[j + 1] := Least(current[j] + 1, previous[j + 1] + 1, previous[j] + cost);
    }
  }

  // ----- A metric -----

  lemma {:induction false} SameIsZero(a: string, i: nat)
    requires i <= |a|
    ensures Cell(a, a, i, i) == 0
  {
    if i > 0 {
      SameIsZero(a, i - 1);
    }
  }

  lemma {:induction false} ZeroIsSame(a: string, b: string, i: nat, j: nat)
    requires i <= |a| && j <= |b| && Cell(a, b, i, j) == 0
    ensures i == j && a[..i] == b[..j]
    decreases i
  {
    if i > 0 && j > 0 {
      ZeroIsSame(a, b, i - 1, j - 1);
      assert a[..i] == a[..i - 1] + [a[i - 1]] && b[..j] == b[..j - 1] + [b[j - 1]];
    }
  }

  ghost predicate Symmetric(a: string, b: string, i: nat, j: nat)
    requires i <= |a| && j <= |b|
  {
    Cell(a, b, i, j) == Cell(b, a, j, i)
  }

  lemma {:induction false} CellSymmetric(a: string, b: string, i: nat, j: nat)
    requires i <= |a| && j <= |b|
    ensures Symmetric(a, b, i, j)
    decreases i + j
  {
    if i > 0 && j > 0 {
      CellSymmetric(a, b, i - 1, j);
      CellSymmetric(a, b, i, j - 1);
      CellSymmetric(a, b, i - 1, j - 1);
    }
  }

  lemma {:induction false} CellAtLeast(a: string, b: string, i: nat, j: nat)
    requires i <= |a| && j <= |b|
    ensures i <= Cell(a, b, i, j) + j
    decreases i + j
  {
    if i > 0 && j > 0 {
      CellAtLeast(a, b, i - 1, j);
      CellAtLeast(a, b, i, j - 1);
      CellAtLeast(a, b, i - 1, j - 1);
    }
  }

  lemma {:induction false} CellAtMost(a: string, b: string, i: nat, j: nat)
    requires i <= |a| && j <= |b|
    ensures Cell(a, b, i, j) <= i || Cell(a, b, i, j) <= j
  {
    if i > 0 && j > 0 {
      CellAtMost(a, b, i - 1, j - 1);
    }
  }

  lemma CellBounds(a: string, b: string, i: nat, j: nat)
    requires i <= |a| && j <= |b|
    ensures i <= Cell(a, b, i, j) + j && j <= Cell(a, b, i, j) + i
    ensures Cell(a, b, i, j) <= i || Cell(a, b, i, j) <= j
  {
    CellAtLeast(a, b, i, j);
    CellAtLeast(b, a, j, i);
    CellSymmetric(a, b, i, j);
    CellAtMost(a, b, i, j);
  }

  /** How the last characters of two prefixes are matched up by a cheapest alignment. */
  datatype Move = DropLeft | DropRight | Pair

  function LastMove(a: string, b: string, i: nat, j: nat): (m: Move)
    requires i <= |a| && j <= |b| && i + j > 0
    ensures m == DropLeft ==> i > 0 && Cell(a, b, i, j) == Cell(a, b, i - 1, j) + 1
    ensures m == DropRight ==> j > 0 && Cell(a, b, i, j) == Cell(a, b, i, j - 1) + 1
    ensures m == Pair ==>
              i > 0 && j > 0 && Cell(a, b, i, j) == Cell(a, b, i - 1, j - 1) + SubstitutionCost(a[i - 1], b[j - 1])
  {
    if j == 0 then DropLeft
    else if i == 0 then DropRight
    else if Cell(a, b, i, j) == Cell(a, b, i - 1, j) + 1 then DropLeft
    else if Cell(a, b, i, j) == Cell(a, b, i, j - 1) + 1 then DropRight
    else Pair
  }

  lemma {:induction false} CellTriangle(a: string, b: string, c: string, i: nat, j: nat, k: nat)
    requires i <= |a| && j <= |b| && k <= |c|
    ensures Triangle(a, b, c, i, j, k)
    decreases i + j + k, 1
  {
    if i == 0 || j == 0 || k == 0 {
      TriangleAtEdge(a, b, c, i, j, k);
    } else {
      var ab, bc := LastMove(a, b, i, j), LastMove(b, c, j, k);
      if ab == DropLeft {
        ByDropLeft(a, b, c, i, j, k);
      } else if bc == DropRight {
        ByDropRight(a, b, c, i, j, k);
      } else if ab == DropRight && bc == DropLeft {
        ByMeeting(a, b, c, i, j, k);
      } else if ab == DropRight {
        ByInsertThenPair(a, b, c, i, j, k);
      } else if bc == DropLeft {
        ByPairThenDelete(a, b, c, i, j, k);
      } else {
        ByPairs(a, b, c, i, j, k);
      }
    }
  }

  ghost predicate Triangle(a: string, b: string, c: string, i: nat, j: nat, k: nat)
    requires i <= |a| && j <= |b| && k <= |c|
  {
    Cell(a, c, i, k) <= Cell(a, b, i, j) + Cell(b, c, j, k)
  }

  lemma TriangleAtEdge(a: string, b: string, c: string, i: nat, j: nat, k: nat)
    requires i <= |a| && j <= |b| && k <= |c| && (i == 0 || j == 0 || k == 0)
    ensures Triangle(a, b, c, i, j, k)
  {
    CellBounds(a, b, i, j);
    CellBounds(b, c, j, k);
    CellBounds(a, c, i, k);
  }

  lemma {:induction false} ByDropLeft(a: string, b: string, c: string, i: nat, j: nat, k: nat)
    requires 0 < i <= |a| && 0 < j <= |b| && 0 < k <= |c| && LastMove(a, b, i, j) == DropLeft
    ensures Triangle(a, b, c, i, j, k)
    decreases i + j + k, 0
  {
    CellTriangle(a, b, c, i - 1, j, k);
  }

  lemma {:induction false} ByDropRight(a: string, b: string, c: string, i: nat, j: nat, k: nat)
    requires 0 < i <= |a| && 0 < j <= |b| && 0 < k <= |c| && LastMove(b, c, j, k) == DropRight
    ensures Triangle(a, b, c, i, j, k)
    decreases i + j + k, 0
  {
    CellTriangle(a, b, c, i, j, k - 1);
  }

  lemma {:induction false} ByMeeting(a: string, b: string, c: string, i: nat, j: nat, k: nat)
    requires 0 < i <= |a| && 0 < j <= |b| && 0 < k <= |c| && LastMove(a, b, i, j) == DropRight && LastMove(b, c, j, k) == DropLeft
    ensures Triangle(a, b, c, i, j, k)
    decreases i + j + k, 0
  {
    CellTriangle(a, b, c, i, j - 1, k);
  }

  lemma {:induction false} ByInsertThenPair(a: string, b: string, c: string, i: nat, j: nat, k: nat)
    requires 0 < i <= |a| && 0 < j <= |b| && 0 < k <= |c| && LastMove(a, b, i, j) == DropRight && LastMove(b, c, j, k) == Pair
    ensures Triangle(a, b, c, i, j, k)
    decreases i + j + k, 0
  {
    CellTriangle(a, b, c, i, j - 1, k - 1);
  }

  lemma {:induction false} ByPairThenDelete(a: string, b: string, c: string, i: nat, j: nat, k: nat)
    requires 0 < i <= |a| && 0 < j <= |b| && 0 < k <= |c| && LastMove(a, b, i, j) == Pair && LastMove(b, c, j, k) == DropLeft
    ensures Triangle(a, b, c, i, j, k)
    decreases i + j + k, 0
  {
    CellTriangle(a, b, c, i - 1, j - 1, k);
  }

  lemma {:induction false} ByPairs(a: string, b: string, c: string, i: nat, j: nat, k: nat)
    requires 0 < i <= |a| && 0 < j <= |b| && 0 < k <= |c| && LastMove(a, b, i, j) == Pair && LastMove(b, c, j, k) == Pair
    ensures Triangle(a, b, c, i, j, k)
    decreases i + j + k, 0
  {
    CellTriangle(a, b, c, i - 1, j - 1, k - 1);
  }

  /** Zero exactly on equal strings, symmetric, and subject to the triangle inequality. */
  lemma DistanceIsMetric(a: string, b: string, c: string)
    ensures Distance(a, b) == 0 <==> a == b
    ensures Distance(a, b) == Distance(b, a)
    ensures Distance(a, c) <= Distance(a, b) + Distance(b, c)
  {
    SameIsZero(a, |a|);
    if Distance(a, b) == 0 {
      ZeroIsSame(a, b, |a|, |b|);
    }
    CellSymmetric(a, b, |a|, |b|);
    CellTriangle(a, b, c, |a|, |b|, |c|);
  }

  /** Between the difference of the lengths and the longer length. */
  lemma DistanceBounds(a: string, b: string)
    ensures |a| - |b| <= Distance(a, b) && |b| - |a| <= Distance(a, b)
    ensures Distance(a, b) <= if |a| >= |b| then |a| else |b|
  {
    CellBounds(a, b, |a|, |b|);
  }

  // ----- The least number of edits -----

  /** One change of one character of a string. */
  datatype Edit = Insert(at: nat, c: char) | Delete(at: nat) | Substitute(at: nat, c: char)

  predicate Fits(e: Edit, s: string) {
    if e.Insert? then e.at <= |s| else e.at < |s|
  }

  function Apply(e: Edit, s: string): string
    requires Fits(e, s)
  {
    match e
    case Insert(at, c) => s[..at] + [c] + s[at..]
    case Delete(at) => s[..at] + s[at + 1..]
    case Substitute(at, c) => s[..at] + [c] + s[at + 1..]
  }

  /** The edits, made one after another, turn `s` into `t`. */
  predicate Transforms(script: seq<Edit>, s: string, t: string) {
    if script == [] then s == t
    else Fits(script[0], s) && Transforms(script[1..], Apply(script[0], s), t)
  }

  /** Equal stretches behind two prefixes never make them more distant. */
  lemma {:induction false} DiagonalBound(a: string, b: string, i: nat, j: nat, m: nat)
    requires i + m <= |a| && j + m <= |b| && a[i..i + m] == b[j..j + m]
    ensures Cell(a, b, i + m, j + m) <= Cell(a, b, i, j)
  {
    if m > 0 {
      SameButLast(a, b, i, j, m);
      DiagonalBound(a, b, i, j, m - 1);
    }
  }

  lemma SameButLast(a: string, b: string, i: nat, j: nat, m: nat)
    requires 0 < m && i + m <= |a| && j + m <= |b| && a[i..i + m] == b[j..j + m]
    ensures a[i..i + (m - 1)] == b[j..j + (m - 1)] && a[i + m - 1] == b[j + m - 1]
  {
    assert a[i..i + m][..m - 1] == a[i..i + (m - 1)] && b[j..j + m][..m - 1] == b[j..j + (m - 1)];
    assert a[i..i + m][m - 1] == a[i + m - 1] && b[j..j + m][m - 1] == b[j + m - 1];
  }

  /** Two strings that agree up to `p`, and again behind `i` and `j`, are as near as the
      cells between are small. */
  lemma NearBy(a: string, b: string, p: nat, i: nat, j: nat)
    requires p <= i <= p + 1 && p <= j <= p + 1 && i <= |a| && j <= |b| && |a| - i == |b| - j
    requires a[..p] == b[..p] && a[i..] == b[j..]
    ensures Distance(a, b) <= 1
  {
    assert a[0..p] == b[0..p];
    DiagonalBound(a, b, 0, 0, p);
    assert a[i..|a|] == b[j..|b|];
    DiagonalBound(a, b, i, j, |a| - i);
    AtMostOne(a, b, p, i, j);
  }

  lemma AtMostOne(a: string, b: string, p: nat, i: nat, j: nat)
    requires p <= i <= p + 1 && p <= j <= p + 1 && i <= |a| && j <= |b| && Cell(a, b, p, p) == 0
    ensures Cell(a, b, i, j) <= 1
  {
  }

  lemma OneEditIsNear(e: Edit, s: string)
    requires Fits(e, s)
    ensures Distance(s, Apply(e, s)) <= 1
  {
    var t, p := Apply(e, s), e.at;
    match e
    case Insert(_, _) => NearBy(s, t, p, p, p + 1);
    case Delete(_) => NearBy(s, t, p, p + 1, p);
    case Substitute(_, _) => NearBy(s, t, p, p + 1, p + 1);
  }

  lemma {:induction false} ScriptIsLong(script: seq<Edit>, s: string, t: string)
    requires Transforms(script, s, t)
    ensures |script| >= Distance(s, t)
    decreases |script|
  {
    if script == [] {
      DistanceIsMetric(s, t, t);
    } else {
      var u := Apply(script[0], s);
      ScriptIsLong(script[1..], u, t);
      OneEditIsNear(script[0], s);
      DistanceIsMetric(s, u, t);
    }
  }

  ghost predicate Reaches(script: seq<Edit>, n: nat, s: string, t: string) {
    |script| == n && Transforms(script, s, t)
  }

  /** A script of exactly the distance, for two prefixes followed by the same tail. */
  lemma {:induction false} ShortScript(a: string, b: string, i: nat, j: nat, tail: string) returns (script: seq<Edit>)
    requires i <= |a| && j <= |b|
    ensures Reaches(script, Cell(a, b, i, j), a[..i] + tail, b[..j] + tail)
    decreases i + j
  {
    if i + j == 0 {
      script := [];
    } else {
      var move := LastMove(a, b, i, j);
      if move == DropLeft {
        var rest := ShortScript(a, b, i - 1, j, tail);
        script := ScriptDropLeft(a, i, rest, Cell(a, b, i - 1, j), tail, b[..j] + tail);
      } else if move == DropRight {
        var rest := ShortScript(a, b, i, j - 1, [b[j - 1]] + tail);
        script := ScriptDropRight(a[..i], b, j, rest, Cell(a, b, i, j - 1), tail);
      } else {
        var rest := ShortScript(a, b, i - 1, j - 1, [b[j - 1]] + tail);
        script := ScriptPair(a, i, b, j, rest, Cell(a, b, i - 1, j - 1), tail);
      }
    }
  }

  lemma ScriptDropLeft(a: string, i: nat, rest: seq<Edit>, n: nat, tail: string, t: string) returns (script: seq<Edit>)
    requires 0 < i <= |a| && Reaches(rest, n, a[..i - 1] + tail, t)
    ensures Reaches(script, n + 1, a[..i] + tail, t)
  {
    SliceOfTake(a, i - 1, i);
    script := DeleteFirst(a[..i], rest, tail, t);
  }

  lemma ScriptDropRight(u: string, b: string, j: nat, rest: seq<Edit>, n: nat, tail: string) returns (script: seq<Edit>)
    requires 0 < j <= |b| && Reaches(rest, n, u + ([b[j - 1]] + tail), b[..j - 1] + ([b[j - 1]] + tail))
    ensures Reaches(script, n + 1, u + tail, b[..j] + tail)
  {
    TailTakesLast(b, j, tail);
    script := InsertFirst(u, b[j - 1], rest, tail, b[..j] + tail);
  }

  lemma ScriptPair(a: string, i: nat, b: string, j: nat, rest: seq<Edit>, n: nat, tail: string) returns (script: seq<Edit>)
    requires 0 < i <= |a| && 0 < j <= |b|
    requires Reaches(rest, n, a[..i - 1] + ([b[j - 1]] + tail), b[..j - 1] + ([b[j - 1]] + tail))
    ensures Reaches(script, n + SubstitutionCost(a[i - 1], b[j - 1]), a[..i] + tail, b[..j] + tail)
  {
    TailTakesLast(b, j, tail);
    SliceOfTake(a, i - 1, i);
    script := SubstituteFirst(a[..i], b[j - 1], rest, tail, b[..j] + tail);
  }

  lemma TailTakesLast(b: string, j: nat, tail: string)
    requires 0 < j <= |b|
    ensures b[..j - 1] + ([b[j - 1]] + tail) == b[..j] + tail
  {
  }

  lemma Before(e: Edit, rest: seq<Edit>, s: string, u: string, t: string) returns (script: seq<Edit>)
    requires Fits(e, s) && Apply(e, s) == u && Transforms(rest, u, t)
    ensures |script| == 1 + |rest| && Transforms(script, s, t)
  {
    script := [e] + rest;
    assert script[1..] == rest;
  }

  lemma DeleteFirst(u: string, rest: seq<Edit>, tail: string, t: string) returns (script: seq<Edit>)
    requires u != "" && Transforms(rest, u[..|u| - 1] + tail, t)
    ensures |script| == 1 + |rest| && Transforms(script, u + tail, t)
  {
    var e := Delete(|u| - 1);
    assert Apply(e, u + tail) == u[..|u| - 1] + tail;
    script := Before(e, rest, u + tail, u[..|u| - 1] + tail, t);
  }

  lemma InsertFirst(u: string, c: char, rest: seq<Edit>, tail: string, t: string) returns (script: seq<Edit>)
    requires Transforms(rest, u + ([c] + tail), t)
    ensures |script| == 1 + |rest| && Transforms(script, u + tail, t)
  {
    var e := Insert(|u|, c);
    assert Apply(e, u + tail) == u + ([c] + tail);
    script := Before(e, rest, u + tail, u + ([c] + tail), t);
  }

  lemma SubstituteFirst(u: string, c: char, rest: seq<Edit>, tail: string, t: string) returns (script: seq<Edit>)
    requires u != "" && Transforms(rest, u[..|u| - 1] + ([c] + tail), t)
    ensures |script| == SubstitutionCost(u[|u| - 1], c) + |rest| && Transforms(script, u + tail, t)
  {
    var v := u[..|u| - 1];
    if u[|u| - 1] == c {
      TailTakesLast(u, |u|, tail);
      assert u[..|u|] == u;
      script := rest;
    } else {
      var e := Substitute(|u| - 1, c);
      LastSubstituted(u, c, tail);
      script := Before(e, rest, u + tail, v + ([c] + tail), t);
    }
  }

  lemma LastSubstituted(u: string, c: char, tail: string)
    requires u != ""
    ensures var e := Substitute(|u| - 1, c); Fits(e, u + tail) && Apply(e, u + tail) == u[..|u| - 1] + ([c] + tail)
  {
    assert (u + tail)[..|u| - 1] == u[..|u| - 1] && (u + tail)[|u|..] == tail;
    ConcatAssociative(u[..|u| - 1], [c], tail);
  }

  /** The distance is the length of a shortest edit script: some script attains it and no
      script beats it. */
  lemma DistanceIsShortestScript(s: string, t: string)
    ensures exists script :: Transforms(script, s, t) && |script| == Distance(s, t)
    ensures forall script | Transforms(script, s, t) :: |script| >= Distance(s, t)
  {
    var script := ShortScript(s, t, |s|, |t|, "");
    assert s[..|s|] + "" == s && t[..|t|] + "" == t;
    assert Transforms(script, s, t);
    forall script | Transforms(script, s, t) ensures |script| >= Distance(s, t) {
      ScriptIsLong(script, s, t);
    }
  }
}
