/** Which values redaction hides behind a sensitive key, and exactly when. */
module HiddenValues {
  import opened Redaction
  import opened Sequences
  import opened Substrings
  import opened Text
  import opened ValueMeaning

  // ----- Where a token splits -----

  lemma {:induction false} IndexOfLower(s: string, c: char)
    requires !('A' <= c <= 'Z') && !('a' <= c <= 'z')
    ensures IndexOf(Lower(s), c) == IndexOf(s, c)
  {
    if s != "" {
      IndexOfLower(s[1..], c);
      assert Lower(s)[1..] == Lower(s[1..]);
    }
  }

  lemma SplitLower(token: string)
    ensures SplitPoint(Lower(token)) == SplitPoint(token)
  {
    IndexOfLower(token, '=');
    IndexOfLower(token, ':');
  }

  /** Where the first `c` of a text in two parts stands. */
  lemma {:induction false} IndexOfConcat(a: string, b: string, c: char)
    ensures IndexOf(a + b, c) == if c in a then IndexOf(a, c) else |a| + IndexOf(b, c)
    ensures c in a ==> IndexOf(a, c) < |a|
  {
    if a == "" {
      assert a + b == b;
    } else {
      IndexOfConcat(a[1..], b, c);
      assert (a + b)[1..] == a[1..] + b;
      assert c in a <==> a[0] == c || c in a[1..];
    }
  }

  predicate IsSeparator(c: char) { c == '=' || c == ':' }

  /** Where `key`, a separator and `value` split: at the first `=`, else at the first `:`. */
  function SplitOf(key: string, sep: char, value: string): (i: nat)
    ensures i <= |key| + |value|
  {
    if '=' in key then IndexOf(key, '=')
    else if sep == '=' then |key|
    else if '=' in value then
      assert value[..|value|] == value;
      |key| + 1 + IndexOf(value, '=')
    else if ':' in key then IndexOf(key, ':')
    else |key|
  }

  lemma SplitIs(key: string, sep: char, value: string)
    requires IsSeparator(sep)
    ensures SplitPoint(Lower(key + [sep] + value)) == SplitOf(key, sep, value)
  {
    var token := key + ([sep] + value);
    assert key + [sep] + value == token;
    SplitLower(token);
    IndexOfConcat(key, [sep] + value, '=');
    IndexOfConcat([sep], value, '=');
    IndexOfConcat(value, "", '=');
    assert value + "" == value;
    IndexOfConcat(key, [sep] + value, ':');
    IndexOfConcat([sep], value, ':');
    if '=' !in value {
      Absent(value, '=');
    }
  }

  // ----- A sensitive name stays one when it grows -----

  /** The text names a sensitive key. */
  predicate Names(words: Words, text: string) {
    words.sensitive(words.keyOf(Lower(text)))
  }

  /** Text that starts with text that names a sensitive key names one. */
  ghost predicate Growing(words: Words) {
    forall a, b :: words.sensitive(words.keyOf(a)) ==> words.sensitive(words.keyOf(a + b))
  }

  lemma {:induction false} ContainsGrows(a: string, b: string, needle: string)
    requires Contains(a, needle)
    ensures Contains(a + b, needle)
  {
    if StartsWith(a, needle) {
      assert (a + b)[..|needle|] == a[..|needle|];
    } else {
      ContainsGrows(a[1..], b, needle);
      assert (a + b)[1..] == a[1..] + b;
    }
  }

  lemma {:induction false} ContainsBehind(a: string, needle: string, b: string)
    ensures Contains(a + needle + b, needle)
  {
    var s := a + needle + b;
    if a == "" {
      assert s[..|needle|] == needle;
    } else {
      ContainsBehind(a[1..], needle, b);
      assert s[1..] == a[1..] + needle + b;
    }
  }

  lemma ShortWord(word: string)
    requires |word| <= 2
    ensures !IsSensitiveKey(word)
  {
    assert forall k | k in SENSITIVE_KEYS :: |k| > 2;
    HarmlessWord(word);
  }

  /** What is left of a text trimmed at its start and its ends starts what is left of any
      longer one. */
  lemma TrimGrows(a: string, b: string, start: char -> bool, ends: char -> bool)
    requires TrimBy(TrimStartBy(a, start), ends) != ""
    ensures TrimBy(TrimStartBy(a, start), ends) <= TrimBy(TrimStartBy(a + b, start), ends)
  {
    var rest := TrimStartBy(a, start);
    TrimStartWhole(a, b, start);
    TrimStartWhole(rest, b, ends);
    TrimEndGrows(TrimStartBy(rest, ends), b, ends);
  }

  lemma TrimEndGrows(s: string, b: string, drop: char -> bool)
    ensures TrimEndBy(s, drop) <= TrimEndBy(s + b, drop)
  {
    if TrimEndBy(b, drop) == "" {
      TrimEndAll(s, b, drop);
    } else {
      TrimEndWhole(s, b, drop);
    }
  }

  lemma SensitiveGrows(k: string, longer: string)
    requires IsSensitiveKey(k) && k <= longer
    ensures IsSensitiveKey(longer)
  {
    var s :| s in SENSITIVE_KEYS && Contains(k, s);
    ContainsGrows(k, longer[|k|..], s);
    assert k + longer[|k|..] == longer;
  }

  lemma KeysGrow(a: string, b: string)
    requires IsSensitiveKey(KeyOf(a))
    ensures IsSensitiveKey(KeyOf(a + b))
  {
    if KeyOf(a) == "" {
      ShortWord(KeyOf(a));
    } else {
      TrimGrows(a, b, IsDash, NotKeyChar);
      SensitiveGrows(KeyOf(a), KeyOf(a + b));
    }
  }

  lemma ProgramGrows()
    ensures Growing(WORDS)
  {
    forall a, b | WORDS.sensitive(WORDS.keyOf(a)) ensures WORDS.sensitive(WORDS.keyOf(a + b)) {
      KeysGrow(a, b);
    }
  }

  lemma NamesGrow(words: Words, a: string, b: string)
    requires Growing(words) && Names(words, a)
    ensures Names(words, a + b)
  {
    LowerConcat(a, b);
  }

  // ----- What becomes of a key and its value -----

  /** The part in front of the split names a sensitive key. */
  predicate SplitNames(words: Words, key: string, i: nat) {
    i >= |key| || Names(words, key[..i])
  }

  /** A token with a sensitive key is masked behind its split point, unless an earlier
      separator leaves too little of the key in front of it: then it comes out unchanged
      and the next tokens are masked. */
  lemma KeyedToken(key: string, sep: char, value: string, words: Words)
    requires IsSeparator(sep) && Growing(words) && Names(words, key)
    ensures var token := key + [sep] + value;
            var i := SplitOf(key, sep, value);
            ClassifyBy(token, words) ==
            if SplitNames(words, key, i) then KeyVerdict(token, i, words)
            else Verdict(token, if words.auth(words.keyOf(Lower(token))) then 2 else 1)
  {
    var token, i := key + [sep] + value, SplitOf(key, sep, value);
    SplitIs(key, sep, value);
    LowerTake(token, i);
    if i >= |key| {
      assert token[..i] == key + token[|key|..i];
      NamesGrow(words, key, token[|key|..i]);
    } else {
      assert token[..i] == key[..i];
      assert token == key + ([sep] + value);
      NamesGrow(words, key, [sep] + value);
    }
  }

  lemma LowerTake(s: string, i: nat)
    requires i <= |s|
    ensures Lower(s)[..i] == Lower(s[..i])
  {
  }

  /** What comes out shows nothing behind the separator: it is `key` and the separator, or a
      part of them, and the replacement. */
  ghost predicate Hides(out: string, key: string, sep: char) {
    exists p: nat | p <= |key| :: out == Shown(key, sep, p) + REDACTED
  }

  function Shown(key: string, sep: char, p: nat): string
    requires p <= |key|
  {
    (key + [sep])[..p + 1]
  }

  lemma RedactedHasNone()
    ensures '=' !in REDACTED && ':' !in REDACTED && |REDACTED| == 10
  {
  }

  lemma TooShort(key: string, sep: char, value: string, p: nat)
    requires IsSeparator(sep) && p < |key|
    ensures key + [sep] + value != Shown(key, sep, p) + REDACTED
  {
    var token, out := key + [sep] + value, Shown(key, sep, p) + REDACTED;
    RedactedHasNone();
    if |token| == |out| {
      assert out[|key|] == REDACTED[|key| - p - 1] && REDACTED[|key| - p - 1] in REDACTED;
      assert token[|key|] == sep;
    }
  }

  lemma UnchangedHides(key: string, sep: char, value: string)
    requires IsSeparator(sep)
    ensures Hides(key + [sep] + value, key, sep) <==> value == REDACTED
  {
    var front := key + [sep];
    forall p: nat | p < |key| ensures front + value != Shown(key, sep, p) + REDACTED {
      TooShort(key, sep, value, p);
    }
    assert Shown(key, sep, |key|) == front;
    assert (front + value)[|front|..] == value && (front + REDACTED)[|front|..] == REDACTED;
  }

  lemma LateSplitShows(key: string, sep: char, value: string, i: nat)
    requires |key| < i < |key| + 1 + |value|
    ensures var token := key + [sep] + value; !Hides(token[..i] + [token[i]] + REDACTED, key, sep)
  {
    var token := key + [sep] + value;
    var out := token[..i] + [token[i]] + REDACTED;
    forall p: nat | p <= |key| ensures out != Shown(key, sep, p) + REDACTED {
      assert |Shown(key, sep, p) + REDACTED| < |out|;
    }
  }

  lemma EarlySplitHides(key: string, sep: char, value: string, i: nat)
    requires i <= |key|
    ensures var token := key + [sep] + value; Hides(token[..i] + [token[i]] + REDACTED, key, sep)
  {
    var token := key + [sep] + value;
    assert token[..i] + [token[i]] == Shown(key, sep, i);
  }

  /** For every key with a sensitive name and every value: the value is hidden if and only if
      it is the replacement already, or the token splits no later than behind the key and
      what stands in front of the split is itself a sensitive name. */
  lemma ValueHiddenIff(key: string, sep: char, value: string)
    requires IsSeparator(sep) && Names(WORDS, key)
    ensures var i := SplitOf(key, sep, value);
            Hides(Classify(key + [sep] + value).out, key, sep) <==>
            value == REDACTED || (i <= |key| && Names(WORDS, key[..i]))
  {
    ProgramGrows();
    HiddenIffBy(key, sep, value, WORDS);
  }

  lemma HiddenIffBy(key: string, sep: char, value: string, words: Words)
    requires IsSeparator(sep) && Growing(words) && Names(words, key)
    ensures var i := SplitOf(key, sep, value);
            Hides(ClassifyBy(key + [sep] + value, words).out, key, sep) <==>
            value == REDACTED || (i <= |key| && Names(words, key[..i]))
  {
    var i := SplitOf(key, sep, value);
    KeyedOut(key, sep, value, words);
    LateValue(key, sep, value);
    HiddenCases(key, sep, value, i, SplitNames(words, key, i), ClassifyBy(key + [sep] + value, words).out);
    assert key[..|key|] == key;
  }

  lemma KeyedOut(key: string, sep: char, value: string, words: Words)
    requires IsSeparator(sep) && Growing(words) && Names(words, key)
    ensures var token, i := key + [sep] + value, SplitOf(key, sep, value);
            ClassifyBy(token, words).out == if SplitNames(words, key, i) then token[..i] + [token[i]] + REDACTED else token
  {
    KeyedToken(key, sep, value, words);
  }

  lemma HiddenCases(key: string, sep: char, value: string, i: nat, masked: bool, out: string)
    requires IsSeparator(sep) && i <= |key| + |value| && (i > |key| ==> masked && value != REDACTED)
    requires var token := key + [sep] + value; out == if masked then token[..i] + [token[i]] + REDACTED else token
    ensures Hides(out, key, sep) <==> value == REDACTED || (i <= |key| && masked)
  {
    if !masked {
      UnchangedHides(key, sep, value);
    } else if i <= |key| {
      EarlySplitHides(key, sep, value, i);
    } else {
      LateSplitShows(key, sep, value, i);
    }
  }

  lemma LateValue(key: string, sep: char, value: string)
    ensures SplitOf(key, sep, value) > |key| ==> value != REDACTED
  {
    RedactedHasNone();
  }

  /** A key without a separator in it that would split the token first. */
  predicate SplitsAfter(key: string, sep: char) {
    '=' !in key && (sep == ':' ==> ':' !in key)
  }

  /** Behind such a key the whole value is replaced if and only if the separator is `=`, or
      the value has no `=`; otherwise the value comes out up to its first `=`. */
  lemma ValueHidden(key: string, sep: char, value: string)
    requires IsSeparator(sep) && SplitsAfter(key, sep) && Names(WORDS, key)
    ensures Classify(key + [sep] + value).out == key + [sep] + REDACTED <==> sep == '=' || '=' !in value
    ensures sep == ':' && '=' in value ==>
              Classify(key + [sep] + value).out == key + [sep] + Take(value, IndexOf(value, '=')) + "=" + REDACTED
  {
    ProgramGrows();
    HiddenBy(key, sep, value, WORDS);
  }

  lemma HiddenBy(key: string, sep: char, value: string, words: Words)
    requires IsSeparator(sep) && SplitsAfter(key, sep) && Growing(words) && Names(words, key)
    ensures ClassifyBy(key + [sep] + value, words).out == key + [sep] + REDACTED <==> sep == '=' || '=' !in value
    ensures sep == ':' && '=' in value ==>
              ClassifyBy(key + [sep] + value, words).out == key + [sep] + Take(value, IndexOf(value, '=')) + "=" + REDACTED
  {
    LateSplit(key, sep, value);
    KeyedToken(key, sep, value, words);
    if sep == ':' && '=' in value {
      BehindEquals(key, sep, value, IndexOf(value, '='));
    } else {
      BehindKey(key, sep, value);
    }
  }

  /** Such a key is split at its separator, or in the value behind a `:`. */
  lemma LateSplit(key: string, sep: char, value: string)
    requires IsSeparator(sep) && SplitsAfter(key, sep)
    ensures sep == ':' && '=' in value ==>
              var j := IndexOf(value, '=');
              SplitOf(key, sep, value) == |key| + 1 + j && j < |value| && value[j] == '='
    ensures !(sep == ':' && '=' in value) ==> SplitOf(key, sep, value) == |key|
  {
    assert value[..|value|] == value;
  }

  lemma BehindKey(key: string, sep: char, value: string)
    ensures var token := key + [sep] + value; token[..|key|] + [token[|key|]] + REDACTED == key + [sep] + REDACTED
  {
    assert (key + [sep] + value)[..|key|] == key;
  }

  lemma BehindEquals(key: string, sep: char, value: string, j: nat)
    requires j < |value| && value[j] == '='
    ensures var token, i := key + [sep] + value, |key| + 1 + j;
            && token[..i] + [token[i]] + REDACTED == key + [sep] + Take(value, j) + "=" + REDACTED
            && key + [sep] + Take(value, j) + "=" + REDACTED != key + [sep] + REDACTED
  {
    var token, i := key + [sep] + value, |key| + 1 + j;
    assert token[..i] == key + [sep] + value[..j] && token[i] == value[j];
    assert |key + [sep] + Take(value, j) + "=" + REDACTED| > |key + [sep] + REDACTED|;
  }

  // ----- In a text -----

  /** How many later tokens are masked for a value that starts in the token of its key. */
  ghost function LeftOpen(key: string, value: string): nat {
    Asked(Occurs(Lower(key), "auth"), value)
  }

  lemma LeftOpenIs(key: string, value: string)
    ensures AfterValue(WORDS.auth(WORDS.keyOf(Lower(key))), value) == LeftOpen(key, value)
  {
    AuthIff(Lower(key));
    AfterValueIs(Occurs(Lower(key), "auth"), value);
  }

  /** In a text, a sensitive key that is reached unmasked hides its value in its own token
      exactly when it does so alone, and, where it splits the token, as many later tokens as
      that value asks for. */
  lemma SensitiveHidden(tokens: seq<string>, i: nat, key: string, sep: char, value: string)
    requires i < |tokens| && MaskAt(tokens, 0, Classify, i) == 0 && tokens[i] == key + [sep] + value
    requires IsSeparator(sep) && Names(WORDS, key)
    ensures |Redact(tokens, 0, Classify)| == |tokens|
    ensures var split := SplitOf(key, sep, value);
            && (Hides(Redact(tokens, 0, Classify)[i], key, sep) <==>
                value == REDACTED || (split <= |key| && Names(WORDS, key[..split])))
            && (split == |key| ==>
                  forall j | i < j < |tokens| && j - i <= LeftOpen(key, value) :: Redact(tokens, 0, Classify)[j] == REDACTED)
  {
    ValueHiddenIff(key, sep, value);
    RedactAt(tokens, 0, Classify, i);
    if SplitOf(key, sep, value) == |key| {
      ProgramGrows();
      OpenValue(key, sep, value, WORDS);
      LeftOpenIs(key, value);
      AllFollowersMasked(tokens, Classify, i, LeftOpen(key, value));
    }
  }

  lemma OpenValue(key: string, sep: char, value: string, words: Words)
    requires IsSeparator(sep) && Growing(words) && Names(words, key) && SplitOf(key, sep, value) == |key|
    ensures ClassifyBy(key + [sep] + value, words).next == AfterValue(words.auth(words.keyOf(Lower(key))), value)
  {
    KeyedToken(key, sep, value, words);
    TokenParts(key, sep, value);
  }

  lemma TokenParts(key: string, sep: char, value: string)
    ensures var token := key + [sep] + value;
            token[..|key|] == key && token[|key| + 1..] == value && Lower(token)[..|key|] == Lower(key)
  {
    LowerTake(key + [sep] + value, |key|);
    assert (key + [sep] + value)[..|key|] == key;
  }

  lemma AllFollowersMasked(tokens: seq<string>, classify: Classifier, i: nat, n: nat)
    requires i < |tokens| && MaskAt(tokens, 0, classify, i) == 0 && classify(tokens[i]).next == n
    ensures |Redact(tokens, 0, classify)| == |tokens|
    ensures forall j | i < j < |tokens| && j - i <= n :: Redact(tokens, 0, classify)[j] == REDACTED
  {
    RedactLength(tokens, 0, classify);
    forall j | i < j < |tokens| && j - i <= n ensures Redact(tokens, 0, classify)[j] == REDACTED {
      FollowersMasked(tokens, classify, i, j);
    }
  }

  /** A token that names a sensitive key and is not masked itself. */
  predicate BareKey(token: string, words: Words) {
    var i := SplitPoint(Lower(token));
    Names(words, token) && !(i < |token| && Names(words, token[..i]))
  }

  lemma BareKeyVerdict(token: string, words: Words)
    requires BareKey(token, words)
    ensures ClassifyBy(token, words) == Verdict(token, if words.auth(words.keyOf(Lower(token))) then 2 else 1)
  {
    LowerTake(token, SplitPoint(Lower(token)));
  }

  /** In a text, a sensitive key that is not masked itself hides the token after it, and one
      that names an authorization the two after it. */
  lemma BareKeyHides(tokens: seq<string>, i: nat, j: nat)
    requires i < j < |tokens| && MaskAt(tokens, 0, Classify, i) == 0 && BareKey(tokens[i], WORDS)
    requires j - i <= if WORDS.auth(WORDS.keyOf(Lower(tokens[i]))) then 2 else 1
    ensures |Redact(tokens, 0, Classify)| == |tokens| && Redact(tokens, 0, Classify)[j] == REDACTED
  {
    BareKeyVerdict(tokens[i], WORDS);
    FollowersMasked(tokens, Classify, i, j);
  }

  // ----- Two values that come out -----

  lemma ColonThenEquals(key: string, front: string, back: string, words: Words)
    requires SplitsAfter(key, ':') && Growing(words) && Names(words, key) && '=' !in front
    ensures ClassifyBy(key + [':'] + (front + ['='] + back), words).out == key + [':'] + front + "=" + REDACTED
  {
    var value := front + ['='] + back;
    IndexOfFirst(front, '=', back);
    assert value[|front|] == '=';
    assert Take(value, |front|) == front;
    HiddenBy(key, ':', value, words);
  }

  lemma SelfSensitive(key: string)
    requires key in SENSITIVE_KEYS
    ensures IsSensitiveKey(key)
  {
    assert Contains(key, key);
  }

  lemma OwnKey(key: string)
    requires LowerWord(key)
    ensures KeyOf(Lower(key)) == key
  {
    KeyOfWord(key);
  }

  lemma KeywordNames(key: string, words: Words)
    requires words.keyOf(Lower(key)) == key && words.sensitive(key)
    ensures Names(words, key)
  {
  }

  lemma TokenIsKey(key: string)
    requires key == "token"
    ensures LowerWord(key) && SplitsAfter(key, ':') && key in SENSITIVE_KEYS
  {
    assert SENSITIVE_KEYS[3] == key;
  }

  lemma TokenNames(key: string)
    requires key == "token"
    ensures SplitsAfter(key, ':') && Names(WORDS, key)
  {
    TokenIsKey(key);
    OwnKey(key);
    SelfSensitive(key);
    KeywordNames(key, WORDS);
  }

  lemma PaddedParts()
    ensures "token" + [':'] + ("YWJj" + ['='] + "=") == "token:YWJj=="
    ensures "token" + [':'] + "YWJj" + "=" + "[REDACTED]" == "token:YWJj=[REDACTED]"
  {
    assert "YWJj" + ['='] + "=" == "YWJj==";
    assert "token" + [':'] == "token:";
    assert "token:" + "YWJj" == "token:YWJj" && "token:YWJj" + "=" == "token:YWJj=";
  }

  lemma PaddedBy(token: string, words: Words)
    requires token == "token:YWJj==" && Growing(words) && Names(words, "token")
    ensures ClassifyBy(token, words).out == "token:YWJj=[REDACTED]"
  {
    TokenIsKey("token");
    ColonThenEquals("token", "YWJj", "=", words);
    PaddedParts();
  }

  /** `token:YWJj==` comes out with its value up to the first `=`. */
  lemma PaddedValueShows(token: string)
    requires token == "token:YWJj=="
    ensures Classify(token).out == "token:YWJj=[REDACTED]"
  {
    ProgramGrows();
    TokenNames("token");
    PaddedBy(token, WORDS);
  }

  lemma EarlierPair(first: string, rest: string, words: Words)
    requires '=' !in first && !Names(words, first) && Names(words, first + ['='] + rest)
    ensures ClassifyBy(first + ['='] + rest, words).out == first + ['='] + rest
  {
    var token := first + ['='] + rest;
    SplitIs(first, '=', rest);
    assert token[..|first|] == first;
    BareKeyVerdict(token, words);
  }

  lemma PairIsItsKey(token: string)
    requires token == "a=1&password=abc"
    ensures KeyOf(Lower(token)) == token
  {
    assert Lower(token) == token;
    TrimStartKeeps(token, IsDash);
    TrimStartKeeps(token, NotKeyChar);
    TrimEndKeeps(token, NotKeyChar);
  }

  lemma PasswordPair(token: string)
    requires token == "a=1&password=abc"
    ensures IsSensitiveKey(token)
  {
    ContainsBehind("a=1&", "password", "=abc");
    assert "a=1&" + "password" + "=abc" == token;
    assert SENSITIVE_KEYS[0] == "password";
  }

  lemma LetterWord(first: string)
    requires first == "a"
    ensures LowerWord(first) && '=' !in first && |first| == 1
  {
  }

  lemma ShortNoKey(first: string)
    requires LowerWord(first) && |first| <= 2
    ensures !Names(WORDS, first)
  {
    OwnKey(first);
    ShortWord(first);
  }

  lemma PairBy(token: string, words: Words)
    requires token == "a=1&password=abc" && !Names(words, "a") && Names(words, token)
    ensures ClassifyBy(token, words).out == token
  {
    assert "a" + ['='] + "1&password=abc" == token;
    EarlierPair("a", "1&password=abc", words);
  }

  /** `a=1&password=abc` comes out unchanged: its first `=` does not belong to the password. */
  lemma EarlierPairShows(token: string)
    requires token == "a=1&password=abc"
    ensures Classify(token).out == token
  {
    LetterWord("a");
    ShortNoKey("a");
    PairIsItsKey(token);
    PasswordPair(token);
    KeywordNames(token, WORDS);
    PairBy(token, WORDS);
  }
}
