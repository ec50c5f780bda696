/** The string operations of the Rust standard library that the code relies on. */
module Text {
  import opened Sequences

  /** Unicode White_Space, which `trim`, `trim_start` and `split_whitespace` go by. */
  predicate IsWhitespace(c: char) {
    || '\t' <= c <= '\r' || c == ' ' || c == '\U{85}' || c == '\U{A0}' || c == '\U{1680}'
    || '\U{2000}' <= c <= '\U{200A}' || c == '\U{2028}' || c == '\U{2029}'
    || c == '\U{202F}' || c == '\U{205F}' || c == '\U{3000}'
  }

  predicate IsAsciiAlphanumeric(c: char) {
    'a' <= c <= 'z' || 'A' <= c <= 'Z' || '0' <= c <= '9'
  }

  function ToAsciiLower(c: char): char {
    if 'A' <= c <= 'Z' then c + 32 as char else c
  }

  function Lower(s: string): (r: string)
    ensures |r| == |s|
    ensures forall i | 0 <= i < |s| :: r[i] == ToAsciiLower(s[i])
  {
    seq(|s|, i requires 0 <= i < |s| => ToAsciiLower(s[i]))
  }

  /** The same letter, in whatever case. */
  predicate SameLetter(c: char, d: char) {
    c == d || ('A' <= c <= 'Z' && d == c + 32 as char) || ('A' <= d <= 'Z' && c == d + 32 as char)
  }

  /** Lowered texts are equal just when they are so letter by letter but for ASCII case. */
  lemma LowerIff(s: string, t: string)
    ensures Lower(s) == Lower(t) <==> |s| == |t| && forall i | 0 <= i < |s| :: SameLetter(s[i], t[i])
    ensures forall i | 0 <= i < |s| :: SameLetter(Lower(s)[i], s[i]) && !('A' <= Lower(s)[i] <= 'Z')
  {
    if |s| == |t| {
      forall i | 0 <= i < |s| ensures Lower(s)[i] == Lower(t)[i] <==> SameLetter(s[i], t[i]) {
        LetterIff(s[i], t[i]);
      }
      assert Lower(s) == Lower(t) <==> forall i | 0 <= i < |s| :: Lower(s)[i] == Lower(t)[i];
    }
  }

  lemma LetterIff(c: char, d: char)
    ensures ToAsciiLower(c) == ToAsciiLower(d) <==> SameLetter(c, d)
  {
  }

  predicate StartsWith(s: string, prefix: string) {
    |prefix| <= |s| && s[..|prefix|] == prefix
  }

  /** `needle` stands somewhere in `s`. */
  predicate Contains(s: string, needle: string) {
    StartsWith(s, needle) || (s != "" && Contains(s[1..], needle))
  }

  /** Drops leading characters while they satisfy `drop`. */
  function TrimStartBy(s: string, drop: char -> bool): (r: string)
    ensures |r| <= |s| && r == s[|s| - |r|..]
  {
    if s != "" && drop(s[0]) then TrimStartBy(s[1..], drop) else s
  }

  /** Drops trailing characters while they satisfy `drop`. */
  function TrimEndBy(s: string, drop: char -> bool): (r: string)
    ensures r <= s
  {
    if s != "" && drop(s[|s| - 1]) then TrimEndBy(s[..|s| - 1], drop) else s
  }

  function TrimBy(s: string, drop: char -> bool): string {
    TrimEndBy(TrimStartBy(s, drop), drop)
  }

  function TrimStart(s: string): string {
    TrimStartBy(s, IsWhitespace)
  }

  function Trim(s: string): string {
    TrimBy(s, IsWhitespace)
  }

  lemma {:induction false} TrimStartBlank(s: string, i: nat, drop: char -> bool) returns (j: nat)
    requires i < |s| && !drop(s[i])
    ensures j < |TrimStartBy(s, drop)| && !drop(TrimStartBy(s, drop)[j])
    decreases |s|
  {
    if drop(s[0]) {
      j := TrimStartBlank(s[1..], i - 1, drop);
    } else {
      j := i;
    }
  }

  lemma {:induction false} TrimEndBlank(s: string, i: nat, drop: char -> bool)
    requires i < |s| && !drop(s[i])
    ensures TrimEndBy(s, drop) != ""
    decreases |s|
  {
    if drop(s[|s| - 1]) {
      TrimEndBlank(s[..|s| - 1], i, drop);
    }
  }

  /** Text with a character that is to be kept is not trimmed away. */
  lemma NotTrimmedAway(s: string, i: nat, drop: char -> bool)
    requires i < |s| && !drop(s[i])
    ensures TrimBy(s, drop) != ""
  {
    var j := TrimStartBlank(s, i, drop);
    TrimEndBlank(TrimStartBy(s, drop), j, drop);
  }

  lemma TrimEndKeeps(s: string, drop: char -> bool)
    requires s == "" || !drop(s[|s| - 1])
    ensures TrimEndBy(s, drop) == s
  {
  }

  /** Trimming at the end stops at a character that stays. */
  lemma {:induction false} TrimEndTail(a: string, s: string, drop: char -> bool)
    requires a != "" && !drop(a[|a| - 1])
    ensures TrimEndBy(a + s, drop) == a + TrimEndBy(s, drop)
    decreases |s|
  {
    if s != "" && drop(s[|s| - 1]) {
      TrimEndTail(a, s[..|s| - 1], drop);
      assert (a + s)[..|a + s| - 1] == a + s[..|s| - 1];
    } else if s == "" {
      assert a + s == a;
      TrimEndKeeps(a, drop);
    } else {
      TrimEndKeeps(a + s, drop);
    }
  }

  /** Text in front of text that is not trimmed away whole. */
  lemma {:induction false} TrimEndWhole(a: string, s: string, drop: char -> bool)
    requires TrimEndBy(s, drop) != ""
    ensures TrimEndBy(a + s, drop) == a + TrimEndBy(s, drop)
    decreases |s|
  {
    if drop(s[|s| - 1]) {
      TrimEndWhole(a, s[..|s| - 1], drop);
      assert (a + s)[..|a + s| - 1] == a + s[..|s| - 1];
    } else {
      TrimEndKeeps(a + s, drop);
    }
  }

  lemma {:induction false} TrimEndStops(s: string, drop: char -> bool)
    ensures var t := TrimEndBy(s, drop); t == "" || !drop(t[|t| - 1])
    decreases |s|
  {
    if s != "" && drop(s[|s| - 1]) {
      TrimEndStops(s[..|s| - 1], drop);
    }
  }

  lemma {:induction false} TrimStartLeaves(s: string, drop: char -> bool)
    requires s != "" && !drop(s[|s| - 1])
    ensures TrimStartBy(s, drop) != ""
  {
    if drop(s[0]) {
      TrimStartLeaves(s[1..], drop);
    }
  }

  /** Text behind text that is not trimmed away whole. */
  lemma {:induction false} TrimStartWhole(s: string, b: string, drop: char -> bool)
    requires TrimStartBy(s, drop) != ""
    ensures TrimStartBy(s + b, drop) == TrimStartBy(s, drop) + b
  {
    TrimStartStep(s, b, drop);
    if drop(s[0]) {
      TrimStartWhole(s[1..], b, drop);
    }
  }

  lemma TrimStartStep(s: string, b: string, drop: char -> bool)
    requires s != ""
    ensures TrimStartBy(s + b, drop) == if drop(s[0]) then TrimStartBy(s[1..] + b, drop) else s + b
  {
    assert (s + b)[0] == s[0] && (s + b)[1..] == s[1..] + b;
  }

  /** Both ends may be trimmed in either order. */
  lemma {:induction false} TrimCommutes(s: string, drop: char -> bool)
    ensures TrimStartBy(TrimEndBy(s, drop), drop) == TrimBy(s, drop)
    decreases |s|
  {
    if s != "" {
      var c, rest := [s[0]], s[1..];
      assert s == c + rest;
      if !drop(s[0]) {
        TrimEndTail(c, rest, drop);
        TrimStartKeeps(TrimEndBy(s, drop), drop);
      } else {
        TrimCommutes(rest, drop);
        if TrimEndBy(rest, drop) != "" {
          TrimEndWhole(c, rest, drop);
          TrimStartDrops(s[0], TrimEndBy(rest, drop), drop);
        } else {
          TrimEndAll(c, rest, drop);
        }
      }
    }
  }

  lemma {:induction false} TrimEndAll(a: string, s: string, drop: char -> bool)
    requires TrimEndBy(s, drop) == ""
    ensures TrimEndBy(a + s, drop) == TrimEndBy(a, drop)
    decreases |s|
  {
    if s == "" {
      assert a + s == a;
    } else {
      TrimEndAll(a, s[..|s| - 1], drop);
      assert (a + s)[..|a + s| - 1] == a + s[..|s| - 1];
    }
  }

  lemma TrimDropsLast(s: string, c: char, drop: char -> bool)
    requires drop(c)
    ensures TrimBy(s + [c], drop) == TrimBy(s, drop)
  {
    assert (s + [c])[..|s|] == s;
    TrimCommutes(s + [c], drop);
    TrimCommutes(s, drop);
  }

  lemma TrimStartKeeps(s: string, drop: char -> bool)
    requires s == "" || !drop(s[0])
    ensures TrimStartBy(s, drop) == s
  {
  }

  lemma TrimStartDrops(c: char, s: string, drop: char -> bool)
    requires drop(c)
    ensures TrimStartBy([c] + s, drop) == TrimStartBy(s, drop)
  {
    assert ([c] + s)[1..] == s;
  }

  function Join(parts: seq<string>, sep: string): string {
    if parts == [] then ""
    else if |parts| == 1 then parts[0]
    else parts[0] + sep + Join(parts[1..], sep)
  }

  /** Where the first `c` stands, or the length of `s` if it has none. */
  function IndexOf(s: string, c: char): (i: nat)
    ensures i <= |s| && c !in s[..i] && (i < |s| ==> s[i] == c)
  {
    if s == "" || s[0] == c then 0
    else
      assert s[1..][..IndexOf(s[1..], c)] == s[..1 + IndexOf(s[1..], c)][1..];
      1 + IndexOf(s[1..], c)
  }

  /** A line without the carriage return that belonged to its line feed. */
  function DropCr(line: string): string {
    if line != "" && line[|line| - 1] == '\r' then line[..|line| - 1] else line
  }

  /** The lines of `s`: each line feed ends one, and takes a carriage return before it
      along; an unfinished last line counts if it is not empty. */
  function Lines(s: string): seq<string>
    decreases |s|
  {
    if s == "" then []
    else
      var i := IndexOf(s, '\n');
      if i == |s| then [s]
      else [DropCr(s[..i])] + Lines(s[i + 1..])
  }

  lemma LinesOfOne(line: string)
    requires line != "" && '\n' !in line
    ensures Lines(line) == [line]
  {
  }

  lemma {:induction false} IndexOfFirst(line: string, c: char, rest: string)
    requires c !in line
    ensures IndexOf(line + [c] + rest, c) == |line|
  {
    if line == "" {
    } else {
      IndexOfFirst(line[1..], c, rest);
      HeadTail(line[0], line[1..], [c] + rest);
      assert line + [c] + rest == [line[0]] + (line[1..] + [c] + rest);
      assert line[0] in line;
    }
  }

  lemma LinesOfMore(line: string, rest: string)
    requires '\n' !in line
    ensures Lines(line + "\n" + rest) == [DropCr(line)] + Lines(rest)
  {
    var s := line + "\n" + rest;
    IndexOfFirst(line, '\n', rest);
    assert s[..|line|] == line && s[|line| + 1..] == rest;
  }
}
