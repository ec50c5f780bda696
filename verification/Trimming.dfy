/** What trimming leaves: the one word in a wrapping of dropped characters. */
module Trimming {
  import opened Sequences
  import opened Text

  /** `s` is `w` with nothing but dropped characters around it. */
  predicate Wraps(s: string, a: string, w: string, b: string, drop: char -> bool) {
    s == a + w + b && (forall c | c in a :: drop(c)) && (forall c | c in b :: drop(c))
  }

  lemma {:induction false} TrimStartSplits(s: string, drop: char -> bool) returns (a: string)
    ensures s == a + TrimStartBy(s, drop) && forall c | c in a :: drop(c)
  {
    if s != "" && drop(s[0]) {
      var rest := TrimStartSplits(s[1..], drop);
      a := [s[0]] + rest;
      ConcatAssociative([s[0]], rest, TrimStartBy(s, drop));
    } else {
      a := "";
    }
  }

  lemma {:induction false} TrimEndSplits(s: string, drop: char -> bool) returns (b: string)
    ensures s == TrimEndBy(s, drop) + b && forall c | c in b :: drop(c)
    decreases |s|
  {
    if s != "" && drop(s[|s| - 1]) {
      var rest := TrimEndSplits(s[..|s| - 1], drop);
      b := rest + [s[|s| - 1]];
      ConcatAssociative(TrimEndBy(s, drop), rest, [s[|s| - 1]]);
      assert s == s[..|s| - 1] + [s[|s| - 1]];
    } else {
      b := "";
    }
  }

  lemma TrimWraps(s: string, drop: char -> bool) returns (a: string, b: string)
    ensures Wraps(s, a, TrimBy(s, drop), b, drop)
  {
    a := TrimStartSplits(s, drop);
    b := TrimEndSplits(TrimStartBy(s, drop), drop);
    ConcatAssociative(a, TrimBy(s, drop), b);
  }

  lemma {:induction false} TrimStartOf(a: string, s: string, drop: char -> bool)
    requires (forall c | c in a :: drop(c)) && (s == "" || !drop(s[0]))
    ensures TrimStartBy(a + s, drop) == s
  {
    if a == "" {
      assert a + s == s;
    } else {
      TrimStartOf(a[1..], s, drop);
      TrimStartStep(a, s, drop);
      assert a[0] in a;
    }
  }

  lemma {:induction false} TrimEndOf(s: string, b: string, drop: char -> bool)
    requires (forall c | c in b :: drop(c)) && (s == "" || !drop(s[|s| - 1]))
    ensures TrimEndBy(s + b, drop) == s
    decreases |b|
  {
    if b == "" {
      assert s + b == s;
      TrimEndKeeps(s, drop);
    } else {
      TrimEndOf(s, b[..|b| - 1], drop);
      assert (s + b)[..|s + b| - 1] == s + b[..|b| - 1];
      assert b[|b| - 1] in b;
    }
  }

  /** A wrapped word whose ends stay is what trimming leaves. */
  lemma WrappedIsTrimmed(s: string, a: string, w: string, b: string, drop: char -> bool)
    requires Wraps(s, a, w, b, drop) && w != "" && !drop(w[0]) && !drop(w[|w| - 1])
    ensures TrimBy(s, drop) == w
  {
    ConcatAssociative(a, w, b);
    TrimStartOf(a, w + b, drop);
    TrimEndOf(w, b, drop);
  }

  /** Trimming first what would be dropped anyway changes nothing. */
  lemma TrimTwice(s: string, less: char -> bool, drop: char -> bool)
    requires forall c | less(c) :: drop(c)
    ensures TrimBy(TrimBy(s, less), drop) == TrimBy(s, drop)
  {
    var a, b := TrimWraps(s, less);
    WrapsMore(s, a, TrimBy(s, less), b, less, drop);
    SameTrim(s, a, TrimBy(s, less), b, drop);
  }

  lemma WrapsMore(s: string, a: string, w: string, b: string, less: char -> bool, drop: char -> bool)
    requires Wraps(s, a, w, b, less) && forall c | less(c) :: drop(c)
    ensures Wraps(s, a, w, b, drop)
  {
  }

  lemma SameTrim(s: string, a: string, m: string, b: string, drop: char -> bool)
    requires Wraps(s, a, m, b, drop)
    ensures TrimBy(m, drop) == TrimBy(s, drop)
  {
    var a', b' := TrimWraps(m, drop);
    var w := TrimBy(m, drop);
    WrapsOfWraps(s, a, m, b, a', w, b', drop);
    if w != "" {
      TrimmedEnds(m, drop);
    }
    TrimmedIs(s, a + a', w, b' + b, drop);
  }

  lemma TrimmedIs(s: string, a: string, w: string, b: string, drop: char -> bool)
    requires Wraps(s, a, w, b, drop) && (w == "" || (!drop(w[0]) && !drop(w[|w| - 1])))
    ensures TrimBy(s, drop) == w
  {
    if w != "" {
      WrappedIsTrimmed(s, a, w, b, drop);
    } else {
      AllDropped(s, a, b, drop);
    }
  }

  lemma WrapsOfWraps(s: string, a: string, m: string, b: string, a': string, w: string, b': string, drop: char -> bool)
    requires Wraps(s, a, m, b, drop) && Wraps(m, a', w, b', drop)
    ensures Wraps(s, a + a', w, b' + b, drop)
  {
    assert a + (a' + w + b') + b == (a + a') + w + (b' + b);
  }

  lemma TrimmedEnds(s: string, drop: char -> bool)
    requires TrimBy(s, drop) != ""
    ensures var w := TrimBy(s, drop); !drop(w[0]) && !drop(w[|w| - 1])
  {
    var t := TrimStartBy(s, drop);
    TrimEndStops(t, drop);
    TrimStartStops(s, drop);
    assert TrimBy(s, drop) <= t;
  }

  lemma {:induction false} TrimStartStops(s: string, drop: char -> bool)
    ensures var t := TrimStartBy(s, drop); t == "" || !drop(t[0])
  {
    if s != "" && drop(s[0]) {
      TrimStartStops(s[1..], drop);
    }
  }

  lemma AllDropped(s: string, a: string, b: string, drop: char -> bool)
    requires Wraps(s, a, "", b, drop)
    ensures TrimBy(s, drop) == ""
  {
    assert s == (a + b) + "";
    TrimStartOf(a + b, "", drop);
  }

  lemma {:induction false} LessFirst(s: string, less: char -> bool, drop: char -> bool)
    requires forall c | less(c) :: drop(c)
    ensures TrimStartBy(TrimStartBy(s, less), drop) == TrimStartBy(s, drop)
  {
    if s != "" && less(s[0]) {
      LessFirst(s[1..], less, drop);
    }
  }

  lemma LessFirstTrimmed(s: string, less: char -> bool, drop: char -> bool)
    requires forall c | less(c) :: drop(c)
    ensures TrimBy(TrimStartBy(s, less), drop) == TrimBy(s, drop)
  {
    LessFirst(s, less, drop);
  }
}
