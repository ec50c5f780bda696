/** Sorting as the library's `sort_by` does it: a stable order under a comparison. */
module Sorting {

  ghost predicate TotalPreorder<T(!new)>(le: (T, T) -> bool) {
    && (forall x, y :: le(x, y) || le(y, x))
    && (forall x, y, z :: le(x, y) && le(y, z) ==> le(x, z))
  }

  ghost predicate Sorted<T>(xs: seq<T>, le: (T, T) -> bool) {
    forall i, j | 0 <= i < j < |xs| :: le(xs[i], xs[j])
  }

  /** `x` in front of the first element it does not come after. */
  function Insert<T>(x: T, xs: seq<T>, le: (T, T) -> bool): seq<T> {
    if xs == [] || le(x, xs[0]) then [x] + xs else [xs[0]] + Insert(x, xs[1..], le)
  }

  /** The elements in order; equal ones stay in the order they came in. */
  function Sort<T>(xs: seq<T>, le: (T, T) -> bool): seq<T> {
    if xs == [] then [] else Insert(xs[0], Sort(xs[1..], le), le)
  }

  lemma {:induction false} InsertKeeps<T>(x: T, xs: seq<T>, le: (T, T) -> bool)
    ensures multiset(Insert(x, xs, le)) == multiset{x} + multiset(xs)
  {
    if xs == [] || le(x, xs[0]) {
    } else {
      InsertKeeps(x, xs[1..], le);
      assert xs == [xs[0]] + xs[1..];
    }
  }

  lemma InsertMembers<T>(x: T, xs: seq<T>, le: (T, T) -> bool)
    ensures forall y | y in Insert(x, xs, le) :: y == x || y in xs
  {
    InsertKeeps(x, xs, le);
    forall y | y in Insert(x, xs, le) ensures y == x || y in xs {
      assert y in multiset(Insert(x, xs, le));
    }
  }

  lemma {:induction false} SortKeeps<T>(xs: seq<T>, le: (T, T) -> bool)
    ensures multiset(Sort(xs, le)) == multiset(xs)
    ensures |Sort(xs, le)| == |xs|
  {
    if xs != [] {
      SortKeeps(xs[1..], le);
      InsertKeeps(xs[0], Sort(xs[1..], le), le);
      assert xs == [xs[0]] + xs[1..];
    }
    assert |multiset(Sort(xs, le))| == |multiset(xs)|;
  }

  lemma SortMembers<T>(xs: seq<T>, le: (T, T) -> bool, x: T)
    ensures x in Sort(xs, le) <==> x in xs
  {
    SortKeeps(xs, le);
    assert x in multiset(Sort(xs, le)) <==> x in multiset(xs);
  }

  /** A head that comes before everything in a sorted tail. */
  lemma SortedCons<T>(x: T, xs: seq<T>, le: (T, T) -> bool)
    requires Sorted(xs, le) && forall y | y in xs :: le(x, y)
    ensures Sorted([x] + xs, le)
  {
    forall i, j | 0 <= i < j < |[x] + xs| ensures le(([x] + xs)[i], ([x] + xs)[j]) {
      assert ([x] + xs)[j] == xs[j - 1] && xs[j - 1] in xs;
    }
  }

  lemma {:induction false} InsertSorts<T(!new)>(x: T, xs: seq<T>, le: (T, T) -> bool)
    requires TotalPreorder(le) && Sorted(xs, le)
    ensures Sorted(Insert(x, xs, le), le)
  {
    if xs == [] {
    } else if le(x, xs[0]) {
      forall y | y in xs ensures le(x, y) {
        var j :| 0 <= j < |xs| && xs[j] == y;
        assert j == 0 || le(xs[0], xs[j]);
      }
      SortedCons(x, xs, le);
    } else {
      var rest := Insert(x, xs[1..], le);
      InsertSorts(x, xs[1..], le);
      InsertMembers(x, xs[1..], le);
      forall y | y in rest ensures le(xs[0], y) {
        if y != x {
          var j :| 1 <= j < |xs| && xs[j] == y;
        }
      }
      SortedCons(xs[0], rest, le);
    }
  }

  lemma {:induction false} SortSorts<T(!new)>(xs: seq<T>, le: (T, T) -> bool)
    requires TotalPreorder(le)
    ensures Sorted(Sort(xs, le), le)
  {
    if xs != [] {
      SortSorts(xs[1..], le);
      InsertSorts(xs[0], Sort(xs[1..], le), le);
    }
  }

  lemma TakeOutHead<T>(xs: seq<T>)
    requires xs != []
    ensures multiset(xs) == multiset{xs[0]} + multiset(xs[1..])
  {
    assert xs == [xs[0]] + xs[1..];
  }

  lemma HeadIsLeast<T(!new)>(xs: seq<T>, y: T, le: (T, T) -> bool)
    requires TotalPreorder(le) && Sorted(xs, le) && y in multiset(xs)
    ensures le(xs[0], y)
  {
    var i :| 0 <= i < |xs| && xs[i] == y;
    assert i == 0 || le(xs[0], xs[i]);
    assert le(xs[0], xs[0]);
  }

  /** Where no two different elements are equal in the order, there is one sorted list: an
      unstable sort gives it as well. */
  lemma {:induction false} SortedUnique<T(!new)>(xs: seq<T>, ys: seq<T>, le: (T, T) -> bool)
    requires TotalPreorder(le) && forall x, y :: le(x, y) && le(y, x) ==> x == y
    requires Sorted(xs, le) && Sorted(ys, le) && multiset(xs) == multiset(ys)
    ensures xs == ys
    decreases |xs|
  {
    assert |multiset(xs)| == |xs| && |multiset(ys)| == |ys|;
    if xs != [] {
      HeadIsLeast(xs, ys[0], le);
      HeadIsLeast(ys, xs[0], le);
      TakeOutHead(xs);
      TakeOutHead(ys);
      assert multiset(xs[1..]) == multiset(xs) - multiset{xs[0]};
      assert multiset(ys[1..]) == multiset(ys) - multiset{xs[0]};
      SortedUnique(xs[1..], ys[1..], le);
    }
  }

  /** The first `n` of a sorted list come before all the others. */
  lemma FirstBeforeRest<T(!new)>(xs: seq<T>, n: nat, le: (T, T) -> bool, x: T, y: T)
    requires TotalPreorder(le) && Sorted(xs, le) && n <= |xs| && x in xs[..n] && y in xs[n..]
    ensures le(x, y)
  {
    var i :| 0 <= i < n && xs[..n][i] == x;
    var j :| 0 <= j < |xs| - n && xs[n..][j] == y;
    assert le(xs[i], xs[n + j]);
  }

  function Map<T, U>(f: T -> U, xs: seq<T>): (r: seq<U>)
    ensures |r| == |xs| && forall i | 0 <= i < |xs| :: r[i] == f(xs[i])
  {
    seq(|xs|, i requires 0 <= i < |xs| => f(xs[i]))
  }

  /** Sorting by what the mapped elements are compared by is mapping the sorted list. */
  lemma {:induction false} SortMap<T, U>(f: T -> U, xs: seq<T>, le: (T, T) -> bool, leq: (U, U) -> bool)
    requires forall x, y | x in xs && y in xs :: le(x, y) == leq(f(x), f(y))
    ensures Sort(Map(f, xs), leq) == Map(f, Sort(xs, le))
  {
    if xs != [] {
      assert Map(f, xs)[1..] == Map(f, xs[1..]);
      SortMap(f, xs[1..], le, leq);
      var rest := Sort(xs[1..], le);
      forall y | y in rest ensures y in xs {
        SortMembers(xs[1..], le, y);
      }
      InsertMap(f, xs[0], rest, le, leq);
    }
  }

  lemma {:induction false} InsertMap<T, U>(f: T -> U, x: T, xs: seq<T>, le: (T, T) -> bool, leq: (U, U) -> bool)
    requires forall y | y in xs :: le(x, y) == leq(f(x), f(y))
    ensures Insert(f(x), Map(f, xs), leq) == Map(f, Insert(x, xs, le))
  {
    if xs == [] || le(x, xs[0]) {
      MapCons(f, x, xs);
    } else {
      assert xs[0] in xs && xs == [xs[0]] + xs[1..];
      MapCons(f, xs[0], xs[1..]);
      InsertMap(f, x, xs[1..], le, leq);
      MapCons(f, xs[0], Insert(x, xs[1..], le));
    }
  }

  lemma MapCons<T, U>(f: T -> U, x: T, xs: seq<T>)
    ensures Map(f, [x] + xs) == [f(x)] + Map(f, xs)
  {
    var all := Map(f, [x] + xs);
    forall i | 0 <= i < |all| ensures all[i] == ([f(x)] + Map(f, xs))[i] {
      assert all[i] == f(([x] + xs)[i]);
    }
  }
}
