/** Masking credentials in text: `redact_sensitive_text`. */
module Redaction {
  import opened Sequences
  import opened Text

  const REDACTED := "[REDACTED]"

  const SENSITIVE_KEYS: seq<string> := [
    "password", "passwd", "pwd", "token", "secret", "api_key", "apikey", "access_key",
    "credential", "signature", "private_key", "client_secret", "auth", "authorization"]

  predicate IsSensitiveKey(key: string) {
    exists k | k in SENSITIVE_KEYS :: Contains(key, k)
  }

  // ----- The masking automaton -----

  /** What an unmasked token becomes, and how many tokens after it are masked. */
  datatype Verdict = Verdict(out: string, next: nat)

  type Classifier = string -> Verdict

  function Redact(tokens: seq<string>, mask: nat, classify: Classifier): seq<string> {
    if tokens == [] then []
    else if mask > 0 then [REDACTED] + Redact(tokens[1..], mask - 1, classify)
    else [classify(tokens[0]).out] + Redact(tokens[1..], classify(tokens[0]).next, classify)
  }

  method RedactLoop(tokens: seq<string>, classify: Classifier) returns (out: seq<string>)
    ensures out == Redact(tokens, 0, classify)
  {
    out := [];
    var maskNext := 0;
    for i := 0 to |tokens|
      invariant out + Redact(tokens[i..], maskNext, classify) == Redact(tokens, 0, classify)
    {
      var rest := tokens[i..];
      assert rest[1..] == tokens[i + 1..];
      if maskNext > 0 {
        ConcatAssociative(out, [REDACTED], Redact(rest[1..], maskNext - 1, classify));
        out := out + [REDACTED];
        maskNext := maskNext - 1;
        continue;
      }
      var verdict := classify(tokens[i]);
      ConcatAssociative(out, [verdict.out], Redact(rest[1..], verdict.next, classify));
      out := out + [verdict.out];
      maskNext := verdict.next;
    }
  }

  /** What has been redacted is left as it is, and asks for no more masking than before. */
  ghost predicate Settles(classify: Classifier) {
    && classify(REDACTED) == Verdict(REDACTED, 0)
    && forall t :: classify(classify(t).out).out == classify(t).out && classify(classify(t).out).next <= classify(t).next
  }

  /** One token comes out for each token that goes in. */
  lemma {:induction false} RedactLength(tokens: seq<string>, mask: nat, classify: Classifier)
    ensures |Redact(tokens, mask, classify)| == |tokens|
    decreases |tokens|
  {
    if tokens != [] {
      RedactLength(tokens[1..], if mask > 0 then mask - 1 else classify(tokens[0]).next, classify);
    }
  }

  /** A second pass, wherever it masks no more than the first did, changes nothing. */
  lemma {:induction false} SecondPass(tokens: seq<string>, first: nat, second: nat, classify: Classifier)
    requires Settles(classify) && second <= first
    ensures Redact(Redact(tokens, first, classify), second, classify) == Redact(tokens, first, classify)
    decreases |tokens|
  {
    if tokens != [] {
      var next := if first > 0 then first - 1 else classify(tokens[0]).next;
      var head := if first > 0 then REDACTED else classify(tokens[0]).out;
      var again := if second > 0 then second - 1 else classify(head).next;
      SecondPass(tokens[1..], next, again, classify);
      HeadTail(head, Redact(tokens[1..], next, classify), []);
    }
  }

  /** How many tokens are still masked in front of position `i`. */
  function MaskAt(tokens: seq<string>, mask: nat, classify: Classifier, i: nat): nat
    requires i <= |tokens|
    decreases i
  {
    if i == 0 then mask
    else MaskAt(tokens[1..], if mask > 0 then mask - 1 else classify(tokens[0]).next, classify, i - 1)
  }

  /** In front of every position the second pass masks no more than the first did. */
  lemma {:induction false} SecondPassMasksNoMore(tokens: seq<string>, first: nat, second: nat, classify: Classifier, i: nat)
    requires Settles(classify) && second <= first && i <= |tokens|
    ensures |Redact(tokens, first, classify)| == |tokens|
    ensures MaskAt(Redact(tokens, first, classify), second, classify, i) <= MaskAt(tokens, first, classify, i)
    decreases i
  {
    RedactLength(tokens, first, classify);
    if i > 0 {
      var next := if first > 0 then first - 1 else classify(tokens[0]).next;
      var head := if first > 0 then REDACTED else classify(tokens[0]).out;
      var again := if second > 0 then second - 1 else classify(head).next;
      SecondPassMasksNoMore(tokens[1..], next, again, classify, i - 1);
      HeadTail(head, Redact(tokens[1..], next, classify), []);
    }
  }

  /** A masked token leaves no trace: whatever stood in its place, the output is the same. */
  lemma {:induction false} MaskedLeavesNoTrace(tokens: seq<string>, mask: nat, classify: Classifier, i: nat, other: string)
    requires i < |tokens| && MaskAt(tokens, mask, classify, i) > 0
    ensures Redact(tokens[i := other], mask, classify) == Redact(tokens, mask, classify)
    decreases i
  {
    var changed := tokens[i := other];
    if i == 0 {
      assert changed[1..] == tokens[1..];
    } else {
      assert changed[1..] == tokens[1..][i - 1 := other];
      MaskedLeavesNoTrace(tokens[1..], if mask > 0 then mask - 1 else classify(tokens[0]).next, classify, i - 1, other);
    }
  }

  /** What comes out at each position, and what it leaves masked behind it. */
  lemma {:induction false} RedactAt(tokens: seq<string>, mask: nat, classify: Classifier, i: nat)
    requires i < |tokens|
    ensures |Redact(tokens, mask, classify)| == |tokens|
    ensures var m := MaskAt(tokens, mask, classify, i);
            && Redact(tokens, mask, classify)[i] == (if m > 0 then REDACTED else classify(tokens[i]).out)
            && MaskAt(tokens, mask, classify, i + 1) == if m > 0 then m - 1 else classify(tokens[i]).next
    decreases i
  {
    RedactLength(tokens, mask, classify);
    var next := if mask > 0 then mask - 1 else classify(tokens[0]).next;
    if i == 0 {
      assert MaskAt(tokens[1..], next, classify, 0) == next;
    } else {
      RedactAt(tokens[1..], next, classify, i - 1);
    }
  }

  /** The tokens behind one that asks for masking come out masked, as many as it asks for. */
  lemma {:induction false} FollowersMasked(tokens: seq<string>, classify: Classifier, i: nat, j: nat)
    requires i < j < |tokens| && MaskAt(tokens, 0, classify, i) == 0 && j - i <= classify(tokens[i]).next
    ensures |Redact(tokens, 0, classify)| == |tokens| && Redact(tokens, 0, classify)[j] == REDACTED
    ensures MaskAt(tokens, 0, classify, j) == classify(tokens[i]).next - (j - i - 1)
    decreases j
  {
    RedactAt(tokens, 0, classify, j - 1);
    RedactAt(tokens, 0, classify, j);
    if j > i + 1 {
      FollowersMasked(tokens, classify, i, j - 1);
    }
  }

  // ----- What a token is -----

  predicate NotKeyChar(c: char) {
    !IsAsciiAlphanumeric(c) && c != '_'
  }

  predicate NotAlphanumeric(c: char) {
    !IsAsciiAlphanumeric(c)
  }

  predicate IsDash(c: char) { c == '-' }

  predicate IsQuote(c: char) { c == '\'' || c == '"' }

  /** The bare name in a lower-case piece of text. */
  function KeyOf(lower: string): string {
    TrimBy(TrimStartBy(lower, IsDash), NotKeyChar)
  }

  function CountQuotes(s: string): nat {
    if s == "" then 0 else (if IsQuote(s[0]) then 1 else 0) + CountQuotes(s[1..])
  }

  /** Where a token splits into key and value: at its first `=`, else at its first `:`. */
  function SplitPoint(token: string): (i: nat)
    ensures i <= |token|
  {
    var i := IndexOf(token, '=');
    if i < |token| then i else IndexOf(token, ':')
  }

  /** How many tokens to mask after a redacted value, whose key may name an authorization. */
  function AfterValue(auth: bool, rawValue: string): nat {
    var value := TrimBy(rawValue, IsQuote);
    var scheme := Lower(TrimBy(value, NotAlphanumeric));
    if auth && IsScheme(scheme) then 1
    else if value == "" then (if auth then 2 else 1)
    else if CountQuotes(rawValue) % 2 == 1 then 1
    else 0
  }

  predicate NamesAuth(key: string) {
    Contains(key, "auth")
  }

  predicate IsScheme(word: string) {
    word == "bearer" || word == "basic"
  }

  /** How a key is read out of lower-case text, which keys are sensitive and which of those
      name an authorization, and which words name a credential scheme. */
  datatype Words = Words(keyOf: string -> string, sensitive: string -> bool, auth: string -> bool, scheme: string -> bool)

  const WORDS := Words(KeyOf, IsSensitiveKey, NamesAuth, IsScheme)

  function BareVerdict(token: string, words: Words): Verdict {
    var normalized := words.keyOf(Lower(token));
    if words.sensitive(normalized) then Verdict(token, if words.auth(normalized) then 2 else 1)
    else if words.scheme(normalized) then Verdict(normalized, 1)
    else Verdict(token, 0)
  }

  function KeyVerdict(token: string, i: nat, words: Words): Verdict
    requires i < |token|
  {
    var key := words.keyOf(Lower(token)[..i]);
    Verdict(token[..i] + [token[i]] + REDACTED, AfterValue(words.auth(key), token[i + 1..]))
  }

  function ClassifyBy(token: string, words: Words): Verdict {
    var i := SplitPoint(Lower(token));
    if i < |token| && words.sensitive(words.keyOf(Lower(token)[..i])) then KeyVerdict(token, i, words)
    else BareVerdict(token, words)
  }

  function Classify(token: string): Verdict {
    ClassifyBy(token, WORDS)
  }

  // ----- Words that are no keys -----

  lemma LowerConcat(s: string, t: string)
    ensures Lower(s + t) == Lower(s) + Lower(t)
  {
  }

  lemma {:induction false} ContainsMembers(s: string, needle: string)
    requires Contains(s, needle)
    ensures |needle| <= |s| && forall c | c in needle :: c in s
    decreases |s|
  {
    if StartsWith(s, needle) {
      forall c | c in needle ensures c in s {
        assert c in s[..|needle|];
      }
    } else {
      ContainsMembers(s[1..], needle);
      assert forall c | c in s[1..] :: c in s;
    }
  }

  /** A character or a length that gives away that a word is no sensitive key. */
  predicate Harmless(word: string, key: string) {
    |key| > |word| || exists c | c in key :: c !in word
  }

  lemma HarmlessWord(word: string)
    requires forall k | k in SENSITIVE_KEYS :: Harmless(word, k)
    ensures !IsSensitiveKey(word)
  {
    forall k | k in SENSITIVE_KEYS ensures !Contains(word, k) {
      if Contains(word, k) {
        ContainsMembers(word, k);
      }
    }
  }

  lemma LacksOne(word: string, key: string, i: nat)
    requires i < |key| && key[i] !in word
    ensures Harmless(word, key)
  {
    assert key[i] in key;
  }

  lemma RedactedIsHarmless()
    ensures !IsSensitiveKey(Lower("REDACTED")) && !IsScheme(Lower("REDACTED"))
  {
    LowerOfRedacted();
    RedactedIsNoScheme();
    RedactedLacksFront();
    RedactedLacksMiddle();
    RedactedLacksMore();
    RedactedLacksBack();
    forall k | k in SENSITIVE_KEYS ensures Harmless("redacted", k) {
      assert SENSITIVE_KEYS == SENSITIVE_KEYS[..4] + SENSITIVE_KEYS[4..7] + SENSITIVE_KEYS[7..9] + SENSITIVE_KEYS[9..];
    }
    HarmlessWord("redacted");
  }

  lemma RedactedLacksFront()
    ensures forall k | k in SENSITIVE_KEYS[..4] :: Harmless("redacted", k)
  {
    var w := "redacted";
    LacksOne(w, "password", 0);
    LacksOne(w, "passwd", 0);
    LacksOne(w, "pwd", 0);
    LacksOne(w, "token", 1);
  }

  lemma RedactedLacksMiddle()
    ensures forall k | k in SENSITIVE_KEYS[4..7] :: Harmless("redacted", k)
  {
    var w := "redacted";
    LacksOne(w, "secret", 0);
    LacksOne(w, "api_key", 1);
    LacksOne(w, "apikey", 1);
  }

  lemma RedactedLacksMore()
    ensures forall k | k in SENSITIVE_KEYS[7..9] :: Harmless("redacted", k)
  {
    var w := "redacted";
    LacksOne(w, "access_key", 4);
    LacksOne(w, "credential", 5);
  }

  lemma RedactedLacksBack()
    ensures forall k | k in SENSITIVE_KEYS[9..] :: Harmless("redacted", k)
  {
    var w := "redacted";
    LacksOne(w, "signature", 0);
    LacksOne(w, "private_key", 0);
    LacksOne(w, "client_secret", 1);
    LacksOne(w, "auth", 1);
    LacksOne(w, "authorization", 1);
  }

  // ----- Redacted tokens are settled -----

  /** A word of letters is its own key. */
  lemma KeyOfWord(w: string)
    requires w != "" && forall c | c in w :: IsAsciiAlphanumeric(c)
    ensures KeyOf(w) == w
  {
    assert w[0] in w && w[|w| - 1] in w;
    TrimStartKeeps(w, IsDash);
    TrimStartKeeps(w, NotKeyChar);
    TrimEndKeeps(w, NotKeyChar);
  }

  lemma NoSeparator(s: string)
    requires '=' !in s && ':' !in s
    ensures SplitPoint(s) == |s|
  {
    Absent(s, '=');
    Absent(s, ':');
  }

  lemma Absent(s: string, c: char)
    requires c !in s
    ensures IndexOf(s, c) == |s|
  {
  }

  /** A lower-case word of letters or digits. */
  predicate LowerWord(w: string) {
    w != "" && Lower(w) == w && forall c | c in w :: IsAsciiAlphanumeric(c)
  }

  lemma SchemeSettled(w: string, words: Words)
    requires LowerWord(w) && words.keyOf(w) == w && words.scheme(w) && !words.sensitive(w)
    ensures ClassifyBy(w, words) == Verdict(w, 1)
  {
    NoSeparator(w);
  }

  lemma SchemesAreWords(w: string)
    requires IsScheme(w)
    ensures LowerWord(w) && KeyOf(w) == w
  {
    SchemeLetters(w);
    KeyOfWord(w);
  }

  lemma SchemeLetters(w: string)
    requires IsScheme(w)
    ensures LowerWord(w)
  {
  }

  lemma TrimBrackets(open: char, w: string, close: char, drop: char -> bool)
    requires drop(open) && drop(close) && w != "" && !drop(w[0]) && !drop(w[|w| - 1])
    ensures TrimBy([open] + (w + [close]), drop) == w
  {
    TrimStartDrops(open, w + [close], drop);
    TrimStartKeeps(w + [close], drop);
    TrimEndDrops(w, close, drop);
    TrimEndKeeps(w, drop);
  }

  lemma TrimEndDrops(s: string, c: char, drop: char -> bool)
    requires drop(c)
    ensures TrimEndBy(s + [c], drop) == TrimEndBy(s, drop)
  {
    assert (s + [c])[..|s|] == s;
  }

  lemma LowerOfRedacted()
    ensures Lower(REDACTED) == "[redacted]" && Lower("REDACTED") == "redacted"
  {
  }

  /** A word of letters or digits between brackets. */
  predicate Bracketed(token: string, word: string) {
    token == ['['] + (word + [']']) && word != "" && forall c | c in word :: IsAsciiAlphanumeric(c)
  }

  lemma LowerLetters(word: string)
    requires forall c | c in word :: IsAsciiAlphanumeric(c)
    ensures forall c | c in Lower(word) :: IsAsciiAlphanumeric(c)
  {
    var lower := Lower(word);
    forall c | c in lower ensures IsAsciiAlphanumeric(c) {
      var i: nat :| i < |lower| && lower[i] == c;
      assert word[i] in word;
    }
  }

  lemma BracketedSettled(token: string, word: string, words: Words)
    requires Bracketed(token, word) && !words.sensitive(Lower(word)) && !words.scheme(Lower(word))
    requires words.keyOf(['['] + (Lower(word) + [']'])) == Lower(word)
    ensures ClassifyBy(token, words) == Verdict(token, 0)
  {
    var lower := Lower(word);
    LowerLetters(word);
    LowerConcat(word, [']']);
    LowerConcat(['['], word + [']']);
    assert Lower(token) == ['['] + (lower + [']']);
    NoSeparator(Lower(token));
  }

  lemma KeyOfBracketed(w: string)
    requires w != "" && forall c | c in w :: IsAsciiAlphanumeric(c)
    ensures KeyOf(['['] + (w + [']'])) == w
  {
    assert w[0] in w && w[|w| - 1] in w;
    TrimStartKeeps(['['] + (w + [']']), IsDash);
    TrimBrackets('[', w, ']', NotKeyChar);
  }

  lemma RedactedIsBracketed()
    ensures Bracketed(REDACTED, "REDACTED")
  {
    assert ['['] + ("REDACTED" + [']']) == REDACTED;
  }

  lemma RedactedHasNoSeparator()
    ensures '=' !in "[redacted]" && ':' !in "[redacted]"
  {
  }

  lemma {:induction false} NoQuotes(s: string)
    requires forall c | c in s :: !IsQuote(c)
    ensures CountQuotes(s) == 0
  {
    if s != "" {
      NoQuotes(s[1..]);
      assert s[0] in s;
    }
  }

  lemma ValueOfBracketed(token: string, word: string)
    requires Bracketed(token, word)
    ensures TrimBy(token, IsQuote) == token && TrimBy(token, NotAlphanumeric) == word && CountQuotes(token) == 0
  {
    BracketedWithoutQuotes(token, word);
    NoQuotes(token);
    TrimStartKeeps(token, IsQuote);
    TrimEndKeeps(token, IsQuote);
    assert word[0] in word && word[|word| - 1] in word;
    TrimBrackets('[', word, ']', NotAlphanumeric);
  }

  lemma BracketedWithoutQuotes(token: string, word: string)
    requires Bracketed(token, word)
    ensures token != "" && !IsQuote(token[0]) && !IsQuote(token[|token| - 1])
    ensures forall c | c in token :: !IsQuote(c)
  {
    forall i | 0 <= i < |token| ensures !IsQuote(token[i]) {
      if 0 < i < |token| - 1 {
        assert token[i] == word[i - 1] && word[i - 1] in word;
      }
    }
  }

  lemma NothingAfterBracketed(auth: bool, rawValue: string, word: string)
    requires Bracketed(rawValue, word) && !IsScheme(Lower(word))
    ensures AfterValue(auth, rawValue) == 0
  {
    ValueOfBracketed(rawValue, word);
  }

  lemma RedactedIsNoScheme()
    ensures !IsScheme(Lower("REDACTED"))
  {
    assert |Lower("REDACTED")| == 8;
  }

  /** A token that was split and masked is split at the same point again. */
  lemma MaskedSplit(token: string, i: nat)
    requires i == SplitPoint(Lower(token)) && i < |token|
    ensures var out := token[..i] + [token[i]] + REDACTED;
            && SplitPoint(Lower(out)) == i && Lower(out)[..i] == Lower(token)[..i]
            && out[..i] == token[..i] && out[i] == token[i] && out[i + 1..] == REDACTED
  {
    var lower := Lower(token);
    var front, sep := lower[..i], lower[i];
    var out := token[..i] + [token[i]] + REDACTED;
    LowerOfRedacted();
    LowerConcat(token[..i] + [token[i]], REDACTED);
    assert Lower(token[..i] + [token[i]]) == front + [sep];
    assert Lower(out) == front + [sep] + "[redacted]";
    if IndexOf(lower, '=') < |lower| {
      IndexOfFirst(front, '=', "[redacted]");
    } else {
      RedactedHasNoSeparator();
      AbsentBefore(lower, i, "[redacted]");
      Absent(Lower(out), '=');
      IndexOfFirst(front, ':', "[redacted]");
    }
  }

  /** A token without `=` that splits at a `:`. */
  lemma AbsentBefore(lower: string, i: nat, tail: string)
    requires IndexOf(lower, '=') == |lower| && i < |lower| && '=' !in tail
    ensures '=' !in lower[..i] + [lower[i]] + tail
  {
    assert lower[..|lower|] == lower;
    assert lower[i] in lower;
    assert forall c | c in lower[..i] :: c in lower;
  }

  lemma KeyVerdictSettled(token: string, i: nat, words: Words)
    requires i == SplitPoint(Lower(token)) && i < |token| && words.sensitive(words.keyOf(Lower(token)[..i]))
    ensures ClassifyBy(KeyVerdict(token, i, words).out, words) == Verdict(KeyVerdict(token, i, words).out, 0)
  {
    MaskedSplit(token, i);
    RedactedIsBracketed();
    RedactedIsNoScheme();
    NothingAfterBracketed(words.auth(words.keyOf(Lower(token)[..i])), REDACTED, "REDACTED");
  }

  /** What a token becomes is left as it is, and asks for no more masking. */
  predicate StaysSettled(token: string, words: Words) {
    var v := ClassifyBy(token, words);
    ClassifyBy(v.out, words).out == v.out && ClassifyBy(v.out, words).next <= v.next
  }

  lemma BareSettled(token: string, words: Words)
    requires ClassifyBy(token, words) == BareVerdict(token, words)
    requires forall w | words.scheme(w) :: LowerWord(w) && words.keyOf(w) == w
    ensures StaysSettled(token, words)
  {
    var v := ClassifyBy(token, words);
    if v.out != token {
      SchemeSettled(v.out, words);
    }
  }

  lemma TokenSettled(t: string, words: Words)
    requires forall w | words.scheme(w) :: LowerWord(w) && words.keyOf(w) == w
    ensures StaysSettled(t, words)
  {
    var i := SplitPoint(Lower(t));
    if i < |t| && words.sensitive(words.keyOf(Lower(t)[..i])) {
      KeyVerdictSettled(t, i, words);
    } else {
      BareSettled(t, words);
    }
  }

  lemma RedactedSettled(words: Words)
    requires !words.sensitive(Lower("REDACTED")) && !words.scheme(Lower("REDACTED"))
    requires words.keyOf(['['] + (Lower("REDACTED") + [']'])) == Lower("REDACTED")
    ensures ClassifyBy(REDACTED, words) == Verdict(REDACTED, 0)
  {
    RedactedIsBracketed();
    BracketedSettled(REDACTED, "REDACTED", words);
  }

  /** The classification of the program settles. */
  lemma ClassifySettles()
    ensures Settles(Classify)
  {
    var words := WORDS;
    RedactedIsHarmless();
    RedactedIsBracketed();
    LowerLetters("REDACTED");
    KeyOfBracketed(Lower("REDACTED"));
    RedactedSettled(words);
    forall w | words.scheme(w) ensures LowerWord(w) && words.keyOf(w) == w {
      SchemesAreWords(w);
    }
    forall t ensures Classify(Classify(t).out).out == Classify(t).out && Classify(Classify(t).out).next <= Classify(t).next {
      TokenSettled(t, words);
    }
  }
}
