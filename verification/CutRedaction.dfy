/** Redaction that is cut to length: when a second pass changes nothing. */
module CutRedaction {
  import opened HiddenValues
  import opened RedactedText
  import opened Redaction
  import opened Sequences
  import opened Text

  // ----- Where the cut falls -----

  /** The tokens that a cut after `n` characters leaves whole, and what it leaves of the next. */
  function Cut(ts: seq<string>, n: nat): (seq<string>, string)
    decreases |ts|
  {
    if ts == [] then ([], "")
    else if n <= |ts[0]| then ([], ts[0][..n])
    else
      var (before, w) := Cut(ts[1..], n - |ts[0]| - 1);
      ([ts[0]] + before, w)
  }

  lemma JoinFirst(t: string, rest: seq<string>)
    requires rest != []
    ensures Join([t] + rest, " ") == t + " " + Join(rest, " ")
  {
    HeadTail(t, rest, []);
  }

  /** Everything that is joined in front of a last token. */
  lemma {:induction false} JoinLast(before: seq<string>, y: string)
    ensures Join(before + [y], " ") == Join(before + [""], " ") + y
  {
    if before == [] {
      assert [] + [y] == [y];
      assert [] + [""] == [""];
    } else {
      JoinLast(before[1..], y);
      HeadTail(before[0], before[1..], [y]);
      HeadTail(before[0], before[1..], [""]);
      assert [before[0]] + before[1..] == before;
      JoinFirst(before[0], before[1..] + [y]);
      JoinFirst(before[0], before[1..] + [""]);
      ConcatAssociative(before[0] + " ", Join(before[1..] + [""], " "), y);
    }
  }

  /** The whole tokens and the partial one are what the cut leaves. */
  ghost predicate CutLeaves(ts: seq<string>, n: nat, before: seq<string>, w: string) {
    && |before| < |ts| && before == ts[..|before|] && w <= ts[|before|]
    && n < |Join(ts, " ")| && Join(ts, " ")[..n] == Join(before + [w], " ")
  }

  lemma {:induction false} CutIs(ts: seq<string>, n: nat)
    requires n < |Join(ts, " ")|
    ensures CutLeaves(ts, n, Cut(ts, n).0, Cut(ts, n).1)
    decreases |ts|
  {
    var t := ts[0];
    assert ts == [t] + ts[1..];
    if n <= |t| {
      assert [] + [t[..n]] == [t[..n]] && ts[..0] == [];
      assert Join(ts, " ")[..|t|] == t;
      assert Join(ts, " ")[..n] == t[..n];
    } else {
      JoinFirst(t, ts[1..]);
      CutIs(ts[1..], n - |t| - 1);
      CutBehind(t, ts[1..], n - |t| - 1, Cut(ts[1..], n - |t| - 1).0, Cut(ts[1..], n - |t| - 1).1);
    }
  }

  lemma CutBehind(t: string, ts: seq<string>, m: nat, before: seq<string>, w: string)
    requires CutLeaves(ts, m, before, w)
    ensures CutLeaves([t] + ts, |t| + 1 + m, [t] + before, w)
  {
    JoinFirst(t, ts);
    JoinFirst(t, before + [w]);
    HeadTail(t, before, [w]);
    var joined := Join(ts, " ");
    assert (t + " " + joined)[..|t| + 1 + m] == t + " " + joined[..m];
    assert ([t] + ts)[..|before| + 1] == [t] + ts[..|before|];
  }

  // ----- The second pass -----

  lemma {:induction false} RedactTake(tokens: seq<string>, mask: nat, classify: Classifier, k: nat)
    requires k <= |tokens|
    ensures |Redact(tokens, mask, classify)| == |tokens|
    ensures Redact(tokens, mask, classify)[..k] == Redact(tokens[..k], mask, classify)
    decreases |tokens|
  {
    RedactLength(tokens, mask, classify);
    if k > 0 {
      var next := if mask > 0 then mask - 1 else classify(tokens[0]).next;
      RedactTake(tokens[1..], next, classify, k - 1);
      assert tokens[..k][1..] == tokens[1..][..k - 1];
    }
  }

  lemma {:induction false} RedactSnoc(tokens: seq<string>, mask: nat, classify: Classifier, y: string)
    ensures Redact(tokens + [y], mask, classify) ==
            Redact(tokens, mask, classify) + [if MaskAt(tokens, mask, classify, |tokens|) > 0 then REDACTED else classify(y).out]
    decreases |tokens|
  {
    if tokens == [] {
      assert [] + [y] == [y] && [y][1..] == [];
    } else {
      var next := if mask > 0 then mask - 1 else classify(tokens[0]).next;
      RedactSnoc(tokens[1..], next, classify, y);
      assert (tokens + [y])[1..] == tokens[1..] + [y];
    }
  }

  /** Whether the token after these is masked. */
  predicate NextMasked(before: seq<string>) {
    MaskAt(before, 0, Classify, |before|) > 0
  }

  /** What a second pass makes of the token that was cut, with the marker behind it. */
  function CutTokenAgain(before: seq<string>, w: string): string {
    if NextMasked(before) then REDACTED else Classify(w + MARKER).out
  }

  lemma MarkerSolid(w: string, t: string, ws: CharClass)
    requires w <= t && Solid(t, ws) && Solid(MARKER, ws)
    ensures Solid(w + MARKER, ws)
  {
    forall i | 0 <= i < |w + MARKER| ensures !ws((w + MARKER)[i]) {
      if i < |w| {
        assert (w + MARKER)[i] == t[i];
      } else {
        assert (w + MARKER)[i] == MARKER[i - |w|];
      }
    }
  }

  lemma MarkerIsSolid()
    ensures Solid(MARKER, IsWhitespace)
  {
  }

  /** A second pass over a text that was cut keeps its whole tokens. */
  lemma SecondPassOfCut(input: string, n: nat)
    requires n < |RedactText(input)|
    ensures var (before, w) := Cut(Redact(SplitWhitespace(input), 0, Classify), n);
            && RedactText(input)[..n] == Join(before + [w], " ")
            && RedactText(TruncateChars(RedactText(input), n)) == Join(before + [CutTokenAgain(before, w)], " ")
  {
    var tokens := SplitWhitespace(input);
    var once := Redact(tokens, 0, Classify);
    CutIs(once, n);
    var (before, w) := Cut(once, n);
    RedactedTokensSolid(input);
    RedactLength(tokens, 0, Classify);
    MarkerIsSolid();
    CutTokens(once, before, w, IsWhitespace);
    JoinedMarker(before, w);
    KeptTokens(tokens, |before|);
    RedactSnoc(before, 0, Classify, w + MARKER);
  }

  lemma JoinedMarker(before: seq<string>, w: string)
    ensures Join(before + [w], " ") + MARKER == Join(before + [w + MARKER], " ")
  {
    JoinLast(before, w);
    JoinLast(before, w + MARKER);
    ConcatAssociative(Join(before + [""], " "), w, MARKER);
  }

  lemma SolidSnoc(before: seq<string>, y: string, ws: CharClass)
    requires Solid(y, ws) && forall t | t in before :: Solid(t, ws)
    ensures forall t | t in before + [y] :: Solid(t, ws)
  {
  }

  lemma CutTokens(once: seq<string>, before: seq<string>, w: string, ws: CharClass)
    requires ws(' ') && Solid(MARKER, ws) && forall t | t in once :: Solid(t, ws)
    requires |before| < |once| && before == once[..|before|] && w <= once[|before|]
    ensures SplitBy(Join(before + [w + MARKER], " "), ws) == before + [w + MARKER]
  {
    MarkerSolid(w, once[|before|], ws);
    SolidSnoc(before, w + MARKER, ws);
    SplitJoined(before + [w + MARKER], ws);
  }

  lemma KeptTokens(tokens: seq<string>, k: nat)
    requires k <= |tokens|
    ensures |Redact(tokens, 0, Classify)| == |tokens|
    ensures var before := Redact(tokens, 0, Classify)[..k]; Redact(before, 0, Classify) == before
  {
    RedactTake(tokens, 0, Classify, k);
    ClassifySettles();
    SecondPass(tokens[..k], 0, 0, Classify);
  }

  // ----- Idempotence, and exactly when it holds -----

  /** Doing the whole operation twice is doing it once. */
  predicate Idempotent(input: string, maxChars: nat) {
    var once := TruncateChars(RedactText(input), maxChars);
    TruncateChars(RedactText(once), maxChars) == once
  }

  lemma CutAgain(q: string, w: string, x: string, n: nat)
    requires n == |q + w|
    ensures TruncateChars(q + x, n) == q + w + MARKER <==> w < x
  {
    if |x| <= |w| {
      assert |TruncateChars(q + x, n)| < |q + w + MARKER|;
    } else {
      assert (q + x)[..n] == q + x[..|w|];
      assert (q + x[..|w|] + MARKER)[|q|..|q| + |w|] == x[..|w|];
      assert (q + w + MARKER)[|q|..|q| + |w|] == w;
    }
  }

  /** A text that is cut is redacted idempotently if and only if what is left of the cut
      token properly begins what the second pass makes of it. */
  lemma CutIdempotentBy(input: string, n: nat)
    requires n < |RedactText(input)|
    ensures var (before, w) := Cut(Redact(SplitWhitespace(input), 0, Classify), n);
            Idempotent(input, n) <==> w < CutTokenAgain(before, w)
  {
    var (before, w) := Cut(Redact(SplitWhitespace(input), 0, Classify), n);
    var x := CutTokenAgain(before, w);
    SecondPassOfCut(input, n);
    JoinLast(before, w);
    JoinLast(before, x);
    CutAgain(Join(before + [""], " "), w, x, n);
  }

  /** What of a cut token stands in place of a replacement: all of it, or what is behind its
      split point. */
  predicate ReplacementCut(before: seq<string>, w: string) {
    var i := SplitPoint(Lower(w));
    if NextMasked(before) then w < REDACTED
    else i < |w| && Names(WORDS, w[..i]) ==> w[i + 1..] < REDACTED
  }

  lemma MarkerSplits(w: string)
    ensures SplitPoint(Lower(w + MARKER)) == if SplitPoint(Lower(w)) < |w| then SplitPoint(Lower(w)) else |w + MARKER|
  {
    SplitLower(w);
    SplitLower(w + MARKER);
    MarkerHasNone();
    IndexOfConcat(w, MARKER, '=');
    IndexOfConcat(w, MARKER, ':');
    IndexOfConcat(w, "", '=');
    IndexOfConcat(w, "", ':');
    assert w + "" == w;
    Absent(MARKER, '=');
    Absent(MARKER, ':');
  }

  lemma MarkerHasNone()
    ensures '=' !in MARKER && ':' !in MARKER
  {
  }

  /** The marker leaves a token as it is, but for what is behind a sensitive key. */
  lemma MarkedToken(w: string, words: Words)
    requires !words.scheme(words.keyOf(Lower(w + MARKER)))
    ensures var i := SplitPoint(Lower(w));
            ClassifyBy(w + MARKER, words).out ==
            if i < |w| && Names(words, w[..i]) then w[..i] + [w[i]] + REDACTED else w + MARKER
  {
    var i := SplitPoint(Lower(w));
    MarkerSplits(w);
    if i < |w| {
      LowerTake(w + MARKER, i);
      assert (w + MARKER)[..i] == w[..i];
    }
  }

  /** Text that ends in a character to be kept and one to be dropped is trimmed behind the
      former. */
  lemma {:induction false} TrimStartKeepsEnd(s: string, c: char, z: char, drop: char -> bool) returns (a: string)
    requires !drop(c)
    ensures TrimStartBy(s + [c, z], drop) == a + [c, z]
  {
    if s == "" {
      a := "";
      assert s + [c, z] == [c, z] && a + [c, z] == [c, z];
    } else if drop(s[0]) {
      a := TrimStartKeepsEnd(s[1..], c, z, drop);
      assert (s + [c, z])[1..] == s[1..] + [c, z];
    } else {
      a := s;
    }
  }

  lemma TrimmedEndsIn(s: string, c: char, z: char, start: char -> bool, ends: char -> bool) returns (b: string)
    requires !start(c) && !ends(c) && ends(z)
    ensures TrimBy(TrimStartBy(s + [c, z], start), ends) == b + [c]
  {
    var a := TrimStartKeepsEnd(s, c, z, start);
    b := TrimStartKeepsEnd(a, c, z, ends);
    TrimEndOne(b, c, z, ends);
  }

  lemma TrimEndOne(b: string, c: char, z: char, drop: char -> bool)
    requires !drop(c) && drop(z)
    ensures TrimEndBy(b + [c, z], drop) == b + [c]
  {
    assert (b + [c, z])[..|b| + 1] == b + [c];
    TrimEndKeeps(b + [c], drop);
  }

  lemma MarkedIsNoScheme(w: string)
    ensures !IsScheme(KeyOf(Lower(w + MARKER)))
  {
    LowerConcat(w, MARKER);
    LowerMarker();
    ConcatAssociative(Lower(w), "...[truncate", ['d', ']']);
    NoSchemeBehind(Lower(w) + "...[truncate");
  }

  lemma NoSchemeBehind(s: string)
    ensures !IsScheme(KeyOf(s + ['d', ']']))
  {
    var b := TrimmedEndsIn(s, 'd', ']', IsDash, NotKeyChar);
    EndsOtherwise(b + ['d']);
  }

  lemma LowerMarker()
    ensures Lower(MARKER) == "...[truncate" + ['d', ']']
  {
  }

  lemma EndsOtherwise(word: string)
    requires word != "" && word[|word| - 1] == 'd'
    ensures !IsScheme(word)
  {
  }

  lemma ReplacementBegins(w: string, i: nat)
    requires i < |w|
    ensures w < w[..i] + [w[i]] + REDACTED <==> w[i + 1..] < REDACTED
  {
    var front, rest := w[..i] + [w[i]], w[i + 1..];
    assert w == front + rest;
    if |rest| < |REDACTED| {
      assert (front + REDACTED)[..|w|] == front + REDACTED[..|rest|];
      assert (front + REDACTED[..|rest|])[|front|..] == REDACTED[..|rest|] && (front + rest)[|front|..] == rest;
    }
  }

  lemma MarkedBegins(w: string, words: Words)
    requires !words.scheme(words.keyOf(Lower(w + MARKER)))
    ensures var i := SplitPoint(Lower(w));
            w < ClassifyBy(w + MARKER, words).out <==> (i < |w| && Names(words, w[..i]) ==> w[i + 1..] < REDACTED)
  {
    var i := SplitPoint(Lower(w));
    MarkedToken(w, words);
    if i < |w| && Names(words, w[..i]) {
      ReplacementBegins(w, i);
    }
  }

  lemma BeginsAgain(before: seq<string>, w: string)
    ensures w < CutTokenAgain(before, w) <==> ReplacementCut(before, w)
  {
    MarkedIsNoScheme(w);
    MarkedBegins(w, WORDS);
  }

  /** For every text and every length, redacting and cutting is idempotent if and only if
      nothing is cut, or the cut leaves at most a part of a replacement: in the token that
      is cut, what stands in the place of a masked text properly begins `[REDACTED]`. */
  lemma RedactionIdempotentIff(input: string, maxChars: nat)
    ensures var (before, w) := Cut(Redact(SplitWhitespace(input), 0, Classify), maxChars);
            Idempotent(input, maxChars) <==> |RedactText(input)| <= maxChars || ReplacementCut(before, w)
  {
    if |RedactText(input)| <= maxChars {
      RedactTextIdempotent(input);
    } else {
      var (before, w) := Cut(Redact(SplitWhitespace(input), 0, Classify), maxChars);
      CutIdempotentBy(input, maxChars);
      BeginsAgain(before, w);
    }
  }

  // ----- Two cuts that show -----

  lemma SplitCut(key: string, sep: char, rest: string, words: Words)
    requires SplitsAfter(key, sep) && IsSeparator(sep) && (sep == ':' ==> '=' !in rest) && Names(words, key)
    ensures var w := key + [sep] + rest;
            var i := SplitPoint(Lower(w));
            i == |key| < |w| && Names(words, w[..i]) && w[i + 1..] == rest
  {
    SplitIs(key, sep, rest);
    var w := key + [sep] + rest;
    assert w[..|key|] == key && w[|key| + 1..] == rest;
  }

  lemma NotBegun(rest: string)
    requires rest == REDACTED || (rest != "" && rest[0] != '[')
    ensures !(rest < REDACTED)
  {
  }

  lemma CutShows(input: string, n: nat, key: string, sep: char, rest: string)
    requires n < |RedactText(input)| && Cut(Redact(SplitWhitespace(input), 0, Classify), n) == ([], key + [sep] + rest)
    requires SplitsAfter(key, sep) && IsSeparator(sep) && (sep == ':' ==> '=' !in rest) && Names(WORDS, key)
    requires rest == REDACTED || (rest != "" && rest[0] != '[')
    ensures !Idempotent(input, n)
  {
    RedactionIdempotentIff(input, n);
    SplitCut(key, sep, rest, WORDS);
    NotBegun(rest);
  }

  lemma TwoTokens(t: string, u: string, ws: CharClass)
    requires ws(' ') && Solid(t, ws) && Solid(u, ws)
    ensures SplitBy(t + " " + u, ws) == [t, u]
  {
    var tokens := [t, u];
    assert tokens[1..] == [u];
    assert Join(tokens, " ") == t + " " + u;
    SplitJoined(tokens, ws);
  }

  lemma FirstOut(tokens: seq<string>, classify: Classifier)
    requires tokens != []
    ensures |Redact(tokens, 0, classify)| == |tokens| && Redact(tokens, 0, classify)[0] == classify(tokens[0]).out
  {
    RedactAt(tokens, 0, classify, 0);
  }

  lemma CutBetween(w: string, x: string)
    ensures Cut([w, x], |w|) == ([], w) && Join([w, x], " ") == w + " " + x
  {
    var ts := [w, x];
    assert ts[1..] == [x] && w[..|w|] == w;
  }

  lemma BehindFirst(input: string, n: nat, key: string, x: string)
    requires Redact(SplitWhitespace(input), 0, Classify) == [key + ['='] + REDACTED, x] && n == |key| + 11
    requires SplitsAfter(key, '=') && Names(WORDS, key)
    ensures !Idempotent(input, n)
  {
    CutBetween(key + ['='] + REDACTED, x);
    CutShows(input, n, key, '=', REDACTED);
  }

  /** A cut exactly behind a replacement shows: the second pass takes the marker for a part of
      the value, and drops it. */
  lemma CutBehindReplacement(input: string, n: nat, key: string, value: string, u: string)
    requires SplitsAfter(key, '=') && Names(WORDS, key)
    requires input == key + ['='] + value + " " + u && n == |key| + 11
    requires Solid(key + ['='] + value, IsWhitespace) && Solid(u, IsWhitespace)
    ensures !Idempotent(input, n)
  {
    var t := key + ['='] + value;
    TwoTokens(t, u, IsWhitespace);
    ValueHidden(key, '=', value);
    var x := TwoOut(t, u, Classify, key + ['='] + REDACTED);
    BehindFirst(input, n, key, x);
  }

  lemma TwoOut(t: string, u: string, classify: Classifier, out: string) returns (x: string)
    requires classify(t).out == out
    ensures Redact([t, u], 0, classify) == [out, x]
  {
    FirstOut([t, u], classify);
    x := Redact([t, u], 0, classify)[1];
  }

  lemma OneOut(t: string, classify: Classifier, out: string)
    requires classify(t).out == out
    ensures Redact([t], 0, classify) == [out]
  {
    FirstOut([t], classify);
  }

  lemma OneToken(t: string, ws: CharClass)
    requires ws(' ') && Solid(t, ws)
    ensures SplitBy(t, ws) == [t]
  {
    SplitJoined([t], ws);
  }

  lemma CutInside(out: string, n: nat)
    requires n <= |out|
    ensures Cut([out], n) == ([], out[..n]) && Join([out], " ") == out
  {
  }

  lemma InsideFirst(input: string, out: string, n: nat, key: string, rest: string)
    requires Redact(SplitWhitespace(input), 0, Classify) == [out] && n < |out| && out[..n] == key + [':'] + rest
    requires SplitsAfter(key, ':') && Names(WORDS, key) && '=' !in rest && rest != "" && rest[0] != '['
    ensures !Idempotent(input, n)
  {
    CutInside(out, n);
    CutShows(input, n, key, ':', rest);
  }

  lemma CutOfOut(key: string, front: string, m: nat)
    requires m <= |front|
    ensures var out, n := key + [':'] + front + "=" + REDACTED, |key| + 1 + m;
            n < |out| && out[..n] == key + [':'] + front[..m]
  {
  }

  /** A cut in front of the `=` that a token was split at shows too: the second pass splits
      at the earlier `:` and replaces more. */
  lemma CutBeforeEquals(input: string, n: nat, key: string, front: string, back: string)
    requires SplitsAfter(key, ':') && Names(WORDS, key) && '=' !in front
    requires input == key + [':'] + (front + ['='] + back) && Solid(input, IsWhitespace)
    requires |key| + 1 < n <= |key| + 1 + |front| && front[0] != '['
    ensures !Idempotent(input, n)
  {
    var m := n - |key| - 1;
    ColonOut(input, key, front, back);
    CutOfOut(key, front, m);
    PieceOf(front, m);
    InsideFirst(input, key + [':'] + front + "=" + REDACTED, n, key, front[..m]);
  }

  lemma PieceOf(front: string, m: nat)
    requires '=' !in front && 0 < m <= |front|
    ensures '=' !in front[..m] && front[..m] != "" && front[..m][0] == front[0]
  {
  }

  lemma ColonOut(t: string, key: string, front: string, back: string)
    requires SplitsAfter(key, ':') && Names(WORDS, key) && '=' !in front
    requires t == key + [':'] + (front + ['='] + back) && Solid(t, IsWhitespace)
    ensures Redact(SplitWhitespace(t), 0, Classify) == [key + [':'] + front + "=" + REDACTED]
  {
    OneToken(t, IsWhitespace);
    ProgramGrows();
    ColonThenEquals(key, front, back, WORDS);
    OneOut(t, Classify, key + [':'] + front + "=" + REDACTED);
  }

  lemma ExampleTokens()
    ensures Solid("token=abc", IsWhitespace) && Solid("x", IsWhitespace) && Solid("token:abc=def", IsWhitespace)
  {
  }

  lemma ExampleParts()
    ensures "token" + ['='] + "abc" == "token=abc" && "token=abc" + " " + "x" == "token=abc x"
    ensures "token" + [':'] + ("abc" + ['='] + "def") == "token:abc=def"
  {
    assert "abc" + ['='] + "def" == "abc=def" && "token" + [':'] == "token:";
    assert "token" + ['='] == "token=" && "token=abc" + " " == "token=abc ";
  }

  /** `token=abc x`, cut after 16 characters. */
  lemma CutBehindExample(input: string, n: nat)
    requires input == "token=abc x" && n == 16
    ensures !Idempotent(input, n)
  {
    ExampleTokens();
    TokenNames("token");
    ExampleParts();
    CutBehindReplacement(input, n, "token", "abc", "x");
  }

  lemma ExampleValue(front: string)
    requires front == "abc"
    ensures '=' !in front && |front| == 3 && front[0] != '['
  {
  }

  /** `token:abc=def`, cut after 8 characters. */
  lemma CutInsideExample(input: string, n: nat)
    requires input == "token:abc=def" && n == 8
    ensures !Idempotent(input, n)
  {
    ExampleTokens();
    TokenNames("token");
    ExampleParts();
    ExampleValue("abc");
    CutBeforeEquals(input, n, "token", "abc", "def");
  }
}
