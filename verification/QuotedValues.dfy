/** Values in quotes that take up several tokens: which of their tokens redaction masks. */
module QuotedValues {
  import opened HiddenValues
  import opened RedactedText
  import opened Redaction
  import opened Text

  // ----- A run of masked tokens -----

  /** It holds of all the `n` places behind `i`. */
  predicate AllBehind(p: nat -> bool, i: nat, n: nat) {
    n == 0 || (p(i + n) && AllBehind(p, i, n - 1))
  }

  /** The places of the tokens that are the replacement. */
  function Masked(tokens: seq<string>): nat -> bool {
    (j: nat) => j < |tokens| && tokens[j] == REDACTED
  }

  /** The `n` tokens behind token `i` all come out masked. */
  ghost predicate RunMasked(tokens: seq<string>, classify: Classifier, i: nat, n: nat) {
    AllBehind(Masked(Redact(tokens, 0, classify)), i, n)
  }

  /** Nothing but the replacement comes out as the replacement, which asks for no masking. */
  ghost predicate MarkerStands(classify: Classifier) {
    classify(REDACTED) == Verdict(REDACTED, 0) && forall t | classify(t).out == REDACTED :: t == REDACTED
  }

  /** A counter in front of a place decides whether it is masked, unless it is so anyway. */
  predicate CountedAt(masked: nat -> bool, anyway: nat -> bool, counter: nat -> nat, j: nat) {
    && (masked(j) <==> counter(j) > 0 || anyway(j))
    && (counter(j) > 0 ==> counter(j + 1) == counter(j) - 1)
    && (counter(j) == 0 && anyway(j) ==> counter(j + 1) == 0)
  }

  lemma {:induction false} CountedRun(masked: nat -> bool, anyway: nat -> bool, counter: nat -> nat, i: nat, n: nat, asked: nat)
    requires counter(i + 1) == asked && forall j | i < j <= i + n :: CountedAt(masked, anyway, counter, j)
    ensures AllBehind(masked, i, n) <==> n <= asked || AllBehind(anyway, i + asked, n - asked)
    ensures AllBehind(masked, i, n) ==> counter(i + n + 1) == if n < asked then asked - n else 0
  {
    if n > 0 {
      CountedRun(masked, anyway, counter, i, n - 1, asked);
      assert CountedAt(masked, anyway, counter, i + n);
    }
  }

  function Counter(tokens: seq<string>, classify: Classifier): nat -> nat {
    (j: nat) => if j <= |tokens| then MaskAt(tokens, 0, classify, j) else 0
  }

  lemma RedactCounts(tokens: seq<string>, classify: Classifier, j: nat)
    requires MarkerStands(classify) && j < |tokens|
    ensures CountedAt(Masked(Redact(tokens, 0, classify)), Masked(tokens), Counter(tokens, classify), j)
    ensures MaskAt(tokens, 0, classify, j) == 0 ==> Counter(tokens, classify)(j + 1) == classify(tokens[j]).next
  {
    RedactAt(tokens, 0, classify, j);
  }

  /** The tokens behind one that is reached unmasked all come out masked if and only if those
      it does not ask for are the replacement already. */
  lemma RunMaskedIff(tokens: seq<string>, classify: Classifier, i: nat, n: nat)
    requires MarkerStands(classify) && i + n < |tokens| && MaskAt(tokens, 0, classify, i) == 0
    ensures var asked := classify(tokens[i]).next;
            RunMasked(tokens, classify, i, n) <==> n <= asked || AllBehind(Masked(tokens), i + asked, n - asked)
  {
    RedactCounts(tokens, classify, i);
    forall j | i < j <= i + n
      ensures CountedAt(Masked(Redact(tokens, 0, classify)), Masked(tokens), Counter(tokens, classify), j)
    {
      RedactCounts(tokens, classify, j);
    }
    CountedRun(Masked(Redact(tokens, 0, classify)), Masked(tokens), Counter(tokens, classify), i, n, classify(tokens[i]).next);
  }

  lemma MarkerBy(t: string, words: Words, marker: string)
    requires marker == REDACTED && ClassifyBy(t, words).out == marker && !words.scheme(marker)
    ensures t == marker
  {
    var i := SplitPoint(Lower(t));
    if i < |t| && words.sensitive(words.keyOf(Lower(t)[..i])) {
      VerdictIsLonger(t, i, words);
    } else {
      BareIsToken(t, words);
    }
  }

  lemma VerdictIsLonger(token: string, i: nat, words: Words)
    requires i < |token|
    ensures |KeyVerdict(token, i, words).out| > |REDACTED|
  {
  }

  lemma BareIsToken(token: string, words: Words)
    ensures BareVerdict(token, words).out == token || words.scheme(BareVerdict(token, words).out)
  {
  }

  lemma SchemesAreShort()
    ensures !IsScheme(REDACTED)
  {
    assert |REDACTED| == 10;
  }

  lemma MarkerStandsHere()
    ensures MarkerStands(Classify)
  {
    ClassifySettles();
    SchemesAreShort();
    forall t | Classify(t).out == REDACTED ensures t == REDACTED {
      MarkerBy(t, WORDS, REDACTED);
    }
  }

  // ----- Values in quotes -----

  /** A value in quotes `c` that starts with the token `first` and ends in the last of `rest`. */
  predicate QuotedTo(c: char, first: string, rest: seq<string>) {
    && IsQuote(c) && first != "" && first[0] == c && c !in first[1..]
    && rest != [] && c in rest[|rest| - 1] && forall j | 0 <= j < |rest| - 1 :: c !in rest[j]
  }

  /** The word of a scheme, in whatever quotes. */
  predicate QuotesScheme(first: string) {
    IsScheme(Lower(TrimBy(TrimBy(first, IsQuote), NotAlphanumeric)))
  }

  /** How many tokens of a quoted value are masked behind its first. A quote of the other
      kind in the first token makes it look closed. */
  function Reached(auth: bool, first: string): nat {
    if TrimBy(first, IsQuote) == "" then (if auth then 2 else 1)
    else if (auth && QuotesScheme(first)) || CountQuotes(first[1..]) % 2 == 0 then 1
    else 0
  }

  lemma OpenQuoteAsks(auth: bool, first: string)
    requires first != "" && IsQuote(first[0])
    ensures AfterValue(auth, first) == Reached(auth, first)
  {
    var value := TrimBy(first, IsQuote);
    if value == "" {
      NothingTrimmed(value, NotAlphanumeric);
      NothingIsNoScheme(Lower(TrimBy(value, NotAlphanumeric)));
    } else {
      FirstCounts(first);
    }
  }

  lemma FirstCounts(first: string)
    requires first != "" && IsQuote(first[0])
    ensures CountQuotes(first) % 2 == 1 <==> CountQuotes(first[1..]) % 2 == 0
  {
  }

  lemma NothingIsNoScheme(word: string)
    requires |word| == 0
    ensures !IsScheme(word)
  {
  }

  lemma NothingTrimmed(s: string, drop: char -> bool)
    requires s == ""
    ensures TrimBy(s, drop) == ""
  {
  }

  /** A sensitive key in front of a value in quotes over several tokens: its first token is
      masked, and all the others are if and only if those that are not reached are the
      replacement already. Reached is one, as a rule; none, where the first holds an odd
      number of quotes of the other kind and is not the scheme of an authorization; and two,
      where it is nothing but quotes behind a key that names an authorization. */
  lemma QuotedValueHiddenIff(tokens: seq<string>, i: nat, key: string, sep: char, c: char, first: string, len: nat)
    returns (reached: nat)
    requires i + len < |tokens| && tokens[i] == key + [sep] + first && QuotedTo(c, first, tokens[i + 1..i + 1 + len])
    requires MaskAt(tokens, 0, Classify, i) == 0
    requires IsSeparator(sep) && Names(WORDS, key) && SplitOf(key, sep, first) == |key|
    ensures |Redact(tokens, 0, Classify)| == |tokens| && Redact(tokens, 0, Classify)[i] == key + [sep] + REDACTED
    ensures reached == Reached(KeyNamesAuth(key), first)
    ensures RunMasked(tokens, Classify, i, len) <==> len <= reached || AllBehind(Masked(tokens), i + reached, len - reached)
  {
    reached := Reached(KeyNamesAuth(key), first);
    QuotedAsks(key, sep, c, first);
    MarkerStandsHere();
    RunBehind(tokens, Classify, i, len, key + [sep] + REDACTED, reached);
  }

  predicate KeyNamesAuth(key: string) {
    WORDS.auth(WORDS.keyOf(Lower(key)))
  }

  lemma QuotedAsks(key: string, sep: char, c: char, first: string)
    requires IsQuote(c) && first != "" && first[0] == c
    requires IsSeparator(sep) && Names(WORDS, key) && SplitOf(key, sep, first) == |key|
    ensures Classify(key + [sep] + first) == Verdict(key + [sep] + REDACTED, Reached(KeyNamesAuth(key), first))
  {
    ProgramGrows();
    FirstOfValue(key, sep, first, WORDS);
    OpenQuoteAsks(KeyNamesAuth(key), first);
  }

  lemma FirstOfValue(key: string, sep: char, value: string, words: Words)
    requires IsSeparator(sep) && Growing(words) && Names(words, key) && SplitOf(key, sep, value) == |key|
    ensures ClassifyBy(key + [sep] + value, words) == Verdict(key + [sep] + REDACTED, AfterValue(words.auth(words.keyOf(Lower(key))), value))
  {
    OpenValue(key, sep, value, words);
    KeyedOut(key, sep, value, words);
    BehindKey(key, sep, value);
  }

  lemma RunBehind(tokens: seq<string>, classify: Classifier, i: nat, len: nat, out: string, n: nat)
    requires i + len < |tokens|
    requires MarkerStands(classify) && MaskAt(tokens, 0, classify, i) == 0 && classify(tokens[i]) == Verdict(out, n)
    ensures |Redact(tokens, 0, classify)| == |tokens| && Redact(tokens, 0, classify)[i] == out
    ensures RunMasked(tokens, classify, i, len) <==> len <= n || AllBehind(Masked(tokens), i + n, len - n)
  {
    RunMaskedIff(tokens, classify, i, len);
    RedactAt(tokens, 0, classify, i);
  }

  // ----- A word that comes out -----

  /** A token of one or two characters without a separator comes out as it is. */
  lemma ShortTokenShows(t: string)
    requires |t| <= 2 && '=' !in t && ':' !in t
    ensures Classify(t).out == t
  {
    LowerSeparator(t);
    ShortKey(Lower(t));
    ShortBy(t, WORDS);
  }

  lemma ShortKey(lower: string)
    requires |lower| <= 2
    ensures !IsSensitiveKey(KeyOf(lower)) && !IsScheme(KeyOf(lower))
  {
    KeyIsShorter(lower, IsDash, NotKeyChar);
    ShortWord(KeyOf(lower));
    ShortNoScheme(KeyOf(lower));
  }

  lemma ShortNoScheme(word: string)
    requires |word| <= 2
    ensures !IsScheme(word)
  {
  }

  lemma KeyIsShorter(s: string, start: char -> bool, ends: char -> bool)
    ensures |TrimBy(TrimStartBy(s, start), ends)| <= |s|
  {
  }

  lemma LowerSeparator(t: string)
    requires '=' !in t && ':' !in t
    ensures SplitPoint(Lower(t)) == |t|
  {
    SplitLower(t);
    NoSeparator(t);
  }

  lemma ShortBy(t: string, words: Words)
    requires SplitPoint(Lower(t)) == |t| && !Names(words, t) && !words.scheme(words.keyOf(Lower(t)))
    ensures ClassifyBy(t, words).out == t
  {
  }

  lemma PasswordIsKey(key: string)
    requires key == "password"
    ensures LowerWord(key) && '=' !in key && key in SENSITIVE_KEYS
  {
    assert SENSITIVE_KEYS[0] == key;
  }

  lemma PasswordNames(key: string)
    requires key == "password"
    ensures '=' !in key && Names(WORDS, key)
  {
    PasswordIsKey(key);
    OwnKey(key);
    SelfSensitive(key);
    KeywordNames(key, WORDS);
  }

  lemma PasswordParts()
    ensures "password" + ['='] + "\"a" == "password=\"a" && "password" + ['='] + "\"it's" == "password=\"it's"
    ensures "password" + ['='] + "[REDACTED]" == "password=[REDACTED]"
  {
    assert "password" + ['='] == "password=";
  }

  lemma ShortQuote(auth: bool, first: string)
    requires 1 < |first| <= 5 && IsQuote(first[0]) && !IsQuote(first[1])
    ensures Reached(auth, first) == if CountQuotes(first[1..]) % 2 == 0 then 1 else 0
  {
    NotTrimmedAway(first, 1, IsQuote);
    QuoteTrimmed(first, IsQuote, NotAlphanumeric);
    FourNoScheme(Lower(TrimBy(TrimBy(first, IsQuote), NotAlphanumeric)));
  }

  lemma QuoteTrimmed(s: string, quote: char -> bool, drop: char -> bool)
    requires s != "" && quote(s[0])
    ensures |TrimBy(TrimBy(s, quote), drop)| < |s|
  {
    assert TrimStartBy(s, quote) == TrimStartBy(s[1..], quote);
  }

  lemma FourNoScheme(word: string)
    requires |word| < 5
    ensures !IsScheme(word)
  {
  }

  /** What a password in quotes asks for, if its first token is short. */
  lemma PasswordAsks(key: string, first: string)
    requires key == "password" && 1 < |first| <= 5 && first[0] == '"' && !IsQuote(first[1])
    ensures Classify(key + ['='] + first) == Verdict(key + ['='] + REDACTED, if CountQuotes(first[1..]) % 2 == 0 then 1 else 0)
  {
    PasswordNames(key);
    QuotedAsks(key, '=', '"', first);
    ShortQuote(KeyNamesAuth(key), first);
  }

  lemma PasswordFirst(token: string, key: string, first: string, out: string, n: nat)
    requires key == "password" && 1 < |first| <= 5 && first[0] == '"' && !IsQuote(first[1])
    requires token == key + ['='] + first && out == key + ['='] + REDACTED
    requires n == if CountQuotes(first[1..]) % 2 == 0 then 1 else 0
    ensures Classify(token) == Verdict(out, n)
  {
    PasswordAsks(key, first);
  }

  lemma PlainParts(first: string)
    requires first == "\"a"
    ensures 1 < |first| <= 5 && first[0] == '"' && !IsQuote(first[1]) && CountQuotes(first[1..]) == 0
  {
    assert first[1..] == "a" && "a"[1..] == "";
  }

  lemma OddParts(first: string)
    requires first == "\"it's"
    ensures 1 < |first| <= 5 && first[0] == '"' && !IsQuote(first[1]) && CountQuotes(first[1..]) == 1
  {
    assert first[1..] == "it's" && "it's"[1..] == "t's" && "t's"[1..] == "'s" && "'s"[1..] == "s" && "s"[1..] == "";
  }

  lemma PlainFirst(token: string, out: string)
    requires token == "password=\"a" && out == "password=[REDACTED]"
    ensures Classify(token) == Verdict(out, 1)
  {
    PasswordParts();
    PlainParts("\"a");
    PasswordFirst(token, "password", "\"a", out, 1);
  }

  lemma OddFirst(token: string, out: string)
    requires token == "password=\"it's" && out == "password=[REDACTED]"
    ensures Classify(token) == Verdict(out, 0)
  {
    PasswordParts();
    OddParts("\"it's");
    PasswordFirst(token, "password", "\"it's", out, 0);
  }

  lemma LastWord(token: string)
    requires token == "c\"" || token == "a\""
    ensures Classify(token).out == token
  {
    ShortTokenShows(token);
  }

  lemma Tokens()
    ensures Solid("password=\"a", IsWhitespace) && Solid("b", IsWhitespace) && Solid("c\"", IsWhitespace)
    ensures Solid("password=\"it's", IsWhitespace) && Solid("a\"", IsWhitespace)
  {
  }

  lemma JoinThree(a: string, b: string, c: string)
    ensures Join([a, b, c], " ") == a + " " + (b + " " + c)
  {
    assert [a, b, c][1..] == [b, c] && [b, c][1..] == [c];
    assert Join([c], " ") == c && Join([b, c], " ") == b + " " + c;
  }

  lemma JoinTwo(a: string, b: string)
    ensures Join([a, b], " ") == a + " " + b
  {
    assert [a, b][1..] == [b];
  }

  lemma ThreeRedacted(input: string, a: string, b: string, c: string, out: string)
    requires input == a + " " + (b + " " + c) && Solid(a, IsWhitespace) && Solid(b, IsWhitespace) && Solid(c, IsWhitespace)
    requires Redact([a, b, c], 0, Classify) == [out, REDACTED, c]
    ensures RedactText(input) == out + " " + (REDACTED + " " + c)
  {
    JoinThree(a, b, c);
    SplitJoined([a, b, c], IsWhitespace);
    JoinThree(out, REDACTED, c);
  }

  lemma ThreeTokens(a: string, b: string, c: string, classify: Classifier, out: string)
    requires classify(a) == Verdict(out, 1) && classify(c).out == c
    ensures Redact([a, b, c], 0, classify) == [out, REDACTED, c]
  {
    RedactAt([a, b, c], 0, classify, 0);
    RedactAt([a, b, c], 0, classify, 1);
    RedactAt([a, b, c], 0, classify, 2);
  }

  lemma TwoRedacted(input: string, a: string, b: string, out: string)
    requires input == a + " " + b && Solid(a, IsWhitespace) && Solid(b, IsWhitespace)
    requires Redact([a, b], 0, Classify) == [out, b]
    ensures RedactText(input) == out + " " + b
  {
    JoinTwo(a, b);
    SplitJoined([a, b], IsWhitespace);
    JoinTwo(out, b);
  }

  lemma TwoTokens(a: string, b: string, classify: Classifier, out: string)
    requires classify(a) == Verdict(out, 0) && classify(b).out == b
    ensures Redact([a, b], 0, classify) == [out, b]
  {
    RedactAt([a, b], 0, classify, 0);
    RedactAt([a, b], 0, classify, 1);
  }

  lemma ThreeText()
    ensures "password=\"a" + " " + ("b" + " " + "c\"") == "password=\"a b c\""
    ensures "password=[REDACTED]" + " " + ("[REDACTED]" + " " + "c\"") == "password=[REDACTED] [REDACTED] c\""
  {
    assert "b" + " " == "b " && "b " + "c\"" == "b c\"";
    assert "[REDACTED]" + " " == "[REDACTED] " && "[REDACTED] " + "c\"" == "[REDACTED] c\"";
    assert "password=\"a" + " " == "password=\"a " && "password=[REDACTED]" + " " == "password=[REDACTED] ";
  }

  lemma TwoText()
    ensures "password=\"it's" + " " + "a\"" == "password=\"it's a\""
    ensures "password=[REDACTED]" + " " + "a\"" == "password=[REDACTED] a\""
  {
    assert "password=\"it's" + " " == "password=\"it's " && "password=[REDACTED]" + " " == "password=[REDACTED] ";
  }

  /** `password="a b c"` comes out with its last word. */
  lemma QuotedWordShows(input: string)
    requires input == "password=\"a b c\""
    ensures RedactText(input) == "password=[REDACTED] [REDACTED] c\""
  {
    ThreeText();
    Tokens();
    PlainFirst("password=\"a", "password=[REDACTED]");
    LastWord("c\"");
    ThreeTokens("password=\"a", "b", "c\"", Classify, "password=[REDACTED]");
    ThreeRedacted(input, "password=\"a", "b", "c\"", "password=[REDACTED]");
  }

  /** `password="it's a"` comes out with all but its first word. */
  lemma ApostropheShows(input: string)
    requires input == "password=\"it's a\""
    ensures RedactText(input) == "password=[REDACTED] a\""
  {
    TwoText();
    Tokens();
    OddFirst("password=\"it's", "password=[REDACTED]");
    LastWord("a\"");
    TwoTokens("password=\"it's", "a\"", Classify, "password=[REDACTED]");
    TwoRedacted(input, "password=\"it's", "a\"", "password=[REDACTED]");
  }
}
