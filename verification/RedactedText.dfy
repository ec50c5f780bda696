/** Redaction of whole texts: tokens between whitespace, joined by single spaces. */
module RedactedText {
  import opened Redaction
  import opened Text

  type CharClass = char -> bool

  /** The length of the longest prefix without characters of the class. */
  function SolidPrefix(s: string, ws: CharClass): (n: nat)
    ensures n <= |s| && (forall i | 0 <= i < n :: !ws(s[i])) && (n < |s| ==> ws(s[n]))
  {
    if s == "" || ws(s[0]) then 0 else 1 + SolidPrefix(s[1..], ws)
  }

  function SplitBy(s: string, ws: CharClass): seq<string>
    decreases |s|
  {
    if s == "" then []
    else
      var n := SolidPrefix(s, ws);
      if n == 0 then SplitBy(s[1..], ws) else [s[..n]] + SplitBy(s[n..], ws)
  }

  function SplitWhitespace(s: string): seq<string> {
    SplitBy(s, IsWhitespace)
  }

  /** Redaction before it is cut to length. */
  function RedactText(input: string): string {
    Join(Redact(SplitWhitespace(input), 0, Classify), " ")
  }

  const MARKER := "...[truncated]"

  function TruncateChars(s: string, maxChars: nat): string {
    if |s| <= maxChars then s else s[..maxChars] + MARKER
  }

  method RedactSensitiveText(input: string, maxChars: nat) returns (r: string)
    ensures r == TruncateChars(RedactText(input), maxChars)
  {
    var tokens := RedactLoop(SplitWhitespace(input), Classify);
    r := TruncateChars(Join(tokens, " "), maxChars);
  }

  // ----- Tokens survive being joined and split again -----

  predicate Solid(s: string, ws: CharClass) {
    s != "" && forall i | 0 <= i < |s| :: !ws(s[i])
  }

  lemma {:induction false} SplitIsSolid(s: string, ws: CharClass)
    ensures forall t | t in SplitBy(s, ws) :: Solid(t, ws)
    decreases |s|
  {
    if s != "" {
      var n := SolidPrefix(s, ws);
      SplitIsSolid(if n == 0 then s[1..] else s[n..], ws);
    }
  }

  lemma {:induction false} SolidPrefixOf(t: string, rest: string, ws: CharClass)
    requires Solid(t, ws) && (rest == "" || ws(rest[0]))
    ensures SolidPrefix(t + rest, ws) == |t|
  {
    var n := SolidPrefix(t + rest, ws);
    assert forall i | 0 <= i < |t| :: (t + rest)[i] == t[i];
    if rest != "" {
      assert (t + rest)[|t|] == rest[0];
    }
  }

  lemma {:induction false} SplitJoined(ts: seq<string>, ws: CharClass)
    requires ws(' ') && forall t | t in ts :: Solid(t, ws)
    ensures SplitBy(Join(ts, " "), ws) == ts
    decreases |ts|
  {
    if ts == [] {
    } else {
      assert ts[0] in ts && Solid(ts[0], ws);
      if |ts| == 1 {
        SplitLast(ts[0], ws);
      } else {
        SplitJoined(ts[1..], ws);
        SplitFirst(ts[0], Join(ts[1..], " "), ws);
        assert [ts[0]] + ts[1..] == ts;
      }
    }
  }

  lemma SplitLast(t: string, ws: CharClass)
    requires Solid(t, ws)
    ensures SplitBy(t, ws) == [t]
  {
    TokenTaken(t, "", ws);
    assert t + "" == t;
  }

  lemma SplitFirst(t: string, rest: string, ws: CharClass)
    requires Solid(t, ws) && ws(' ')
    ensures SplitBy(t + " " + rest, ws) == [t] + SplitBy(rest, ws)
  {
    assert t + " " + rest == t + (" " + rest);
    TokenTaken(t, " " + rest, ws);
    GapSkipped(" ", rest, ws);
  }

  // ----- How any text is split -----

  /** A token with the blanks in front of it. */
  datatype Word = Word(gap: string, token: string)

  /** Any text: words, and the blanks behind the last. */
  function Woven(words: seq<Word>, end: string): string {
    if words == [] then end else words[0].gap + (words[0].token + Woven(words[1..], end))
  }

  function Tokens(words: seq<Word>): seq<string> {
    if words == [] then [] else [words[0].token] + Tokens(words[1..])
  }

  predicate AllBlank(s: string, ws: CharClass) {
    forall c | c in s :: ws(c)
  }

  /** Tokens without blanks, with blanks between any two of them. */
  predicate AreWords(words: seq<Word>, ws: CharClass) {
    && (forall w | w in words :: AllBlank(w.gap, ws) && Solid(w.token, ws))
    && forall i | 0 < i < |words| :: words[i].gap != ""
  }

  lemma {:induction false} GapSkipped(gap: string, rest: string, ws: CharClass)
    requires AllBlank(gap, ws)
    ensures SplitBy(gap + rest, ws) == SplitBy(rest, ws)
  {
    if gap == "" {
      assert gap + rest == rest;
    } else {
      assert gap[0] in gap && (gap + rest)[1..] == gap[1..] + rest;
      GapSkipped(gap[1..], rest, ws);
    }
  }

  lemma TokenTaken(t: string, rest: string, ws: CharClass)
    requires Solid(t, ws) && (rest == "" || ws(rest[0]))
    ensures SplitBy(t + rest, ws) == [t] + SplitBy(rest, ws)
  {
    SolidPrefixOf(t, rest, ws);
    assert (t + rest)[..|t|] == t && (t + rest)[|t|..] == rest;
  }

  /** Whatever the blanks are, splitting finds exactly the words of a text, in order. */
  lemma {:induction false} SplitWoven(words: seq<Word>, end: string, ws: CharClass)
    requires AreWords(words, ws) && AllBlank(end, ws)
    ensures SplitBy(Woven(words, end), ws) == Tokens(words)
    decreases |words|
  {
    if words == [] {
      GapSkipped(end, "", ws);
      assert end + "" == end;
    } else {
      var rest := Woven(words[1..], end);
      assert words[0] in words;
      RestStarts(words, end, ws);
      GapSkipped(words[0].gap, words[0].token + rest, ws);
      TokenTaken(words[0].token, rest, ws);
      SplitWoven(words[1..], end, ws);
    }
  }

  lemma RestStarts(words: seq<Word>, end: string, ws: CharClass)
    requires words != [] && AreWords(words, ws) && AllBlank(end, ws)
    ensures AreWords(words[1..], ws)
    ensures var rest := Woven(words[1..], end); rest == "" || ws(rest[0])
  {
    if |words| > 1 {
      assert words[1] in words && words[1].gap[0] in words[1].gap;
    }
  }

  lemma {:induction false} RedactKeepsSolid(tokens: seq<string>, mask: nat, classify: Classifier, ws: CharClass)
    requires forall t | t in tokens :: Solid(t, ws)
    requires Solid(REDACTED, ws) && forall t | Solid(t, ws) :: Solid(classify(t).out, ws)
    ensures forall t | t in Redact(tokens, mask, classify) :: Solid(t, ws)
    decreases |tokens|
  {
    if tokens != [] {
      assert Solid(tokens[0], ws);
      RedactKeepsSolid(tokens[1..], if mask > 0 then mask - 1 else classify(tokens[0]).next, classify, ws);
    }
  }

  lemma FixedWordsSolid()
    ensures Solid(REDACTED, IsWhitespace) && Solid("bearer", IsWhitespace) && Solid("basic", IsWhitespace)
  {
  }

  lemma KeyVerdictSolid(t: string, i: nat, ws: CharClass)
    requires Solid(t, ws) && i < |t| && Solid(REDACTED, ws)
    ensures Solid(t[..i] + [t[i]] + REDACTED, ws)
  {
    var out := t[..i] + [t[i]] + REDACTED;
    assert forall j | 0 <= j <= i :: out[j] == t[j];
    assert forall j | i < j < |out| :: out[j] == REDACTED[j - i - 1];
  }

  /** What a token can become: itself, a bare scheme, or its key with the value masked. */
  ghost predicate Possible(t: string, out: string) {
    out == t || out == "bearer" || out == "basic" || exists i | 0 <= i < |t| :: out == t[..i] + [t[i]] + REDACTED
  }

  lemma ClassifyPossible(t: string)
    ensures Possible(t, Classify(t).out)
  {
    var i := SplitPoint(Lower(t));
    var out := Classify(t).out;
    assert out == t || out == "bearer" || out == "basic" || (i < |t| && out == t[..i] + [t[i]] + REDACTED);
  }

  lemma PossibleSolid(t: string, out: string, ws: CharClass)
    requires Possible(t, out) && Solid(t, ws)
    requires Solid(REDACTED, ws) && Solid("bearer", ws) && Solid("basic", ws)
    ensures Solid(out, ws)
  {
    if out != t && out != "bearer" && out != "basic" {
      var i :| 0 <= i < |t| && out == t[..i] + [t[i]] + REDACTED;
      KeyVerdictSolid(t, i, ws);
    }
  }

  /** The redacted tokens of a text are tokens. */
  lemma RedactedTokensSolid(input: string)
    ensures forall t | t in Redact(SplitWhitespace(input), 0, Classify) :: Solid(t, IsWhitespace)
  {
    SplitIsSolid(input, IsWhitespace);
    FixedWordsSolid();
    forall t | Solid(t, IsWhitespace) ensures Solid(Classify(t).out, IsWhitespace) {
      ClassifyPossible(t);
      PossibleSolid(t, Classify(t).out, IsWhitespace);
    }
    RedactKeepsSolid(SplitWhitespace(input), 0, Classify, IsWhitespace);
  }

  /** Redaction, before it is cut to length, is idempotent on every text. */
  lemma RedactTextIdempotent(input: string)
    ensures RedactText(RedactText(input)) == RedactText(input)
  {
    var tokens := SplitWhitespace(input);
    RedactedTokensSolid(input);
    SplitJoined(Redact(tokens, 0, Classify), IsWhitespace);
    ClassifySettles();
    SecondPass(tokens, 0, 0, Classify);
  }
}
