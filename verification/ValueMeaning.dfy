/** What redaction looks for in a key and in a value, told without trimming and searching. */
module ValueMeaning {
  import opened Redaction
  import opened Substrings
  import opened Text
  import opened Trimming

  // ----- Names -----

  /** A name of letters at both ends. */
  predicate Lettered(name: string) {
    name != "" && IsAsciiAlphanumeric(name[0]) && IsAsciiAlphanumeric(name[|name| - 1])
  }

  lemma KeyKeeps(lower: string, name: string)
    requires Lettered(name)
    ensures Contains(KeyOf(lower), name) <==> Occurs(lower, name)
  {
    TrimKeepsNeedle(lower, IsDash, NotKeyChar, name);
  }

  lemma NamesAreLettered()
    ensures forall k | k in SENSITIVE_KEYS :: Lettered(k)
  {
    assert Lettered(SENSITIVE_KEYS[0]) && Lettered(SENSITIVE_KEYS[1]) && Lettered(SENSITIVE_KEYS[2]);
    assert Lettered(SENSITIVE_KEYS[3]) && Lettered(SENSITIVE_KEYS[4]) && Lettered(SENSITIVE_KEYS[5]);
  }

  /** Lower-case text with a sensitive name somewhere in it. */
  ghost predicate HoldsName(lower: string) {
    exists k | k in SENSITIVE_KEYS :: Occurs(lower, k)
  }

  /** A key is sensitive exactly if one of the names stands anywhere in its text. */
  lemma SensitiveIff(lower: string)
    ensures IsSensitiveKey(KeyOf(lower)) <==> HoldsName(lower)
  {
    NamesAreLettered();
    forall k | k in SENSITIVE_KEYS ensures Contains(KeyOf(lower), k) <==> Occurs(lower, k) {
      KeyKeeps(lower, k);
    }
  }

  /** It names an authorization exactly if `auth` stands anywhere in it. */
  lemma AuthIff(lower: string)
    ensures NamesAuth(KeyOf(lower)) <==> Occurs(lower, "auth")
  {
    KeyKeeps(lower, "auth");
  }

  // ----- What a value asks for -----

  predicate NamesScheme(word: string) {
    Lower(word) == "bearer" || Lower(word) == "basic"
  }

  /** The word of a scheme, in any case, with no letter or digit around it. */
  ghost predicate HoldsScheme(value: string) {
    exists a, w, b :: Wraps(value, a, w, b, NotAlphanumeric) && NamesScheme(w)
  }

  predicate OnlyQuotes(value: string) {
    forall c | c in value :: c == '"' || c == '\''
  }

  function Quotes(value: string): nat {
    multiset(value)['"'] + multiset(value)['\'']
  }

  /** How many tokens behind a value are masked: one behind a scheme, the scheme and one more
      behind a value still to come, and one where a quote is open. */
  ghost function Asked(auth: bool, value: string): nat {
    if auth && HoldsScheme(value) then 1
    else if OnlyQuotes(value) then (if auth then 2 else 1)
    else if Quotes(value) % 2 == 1 then 1
    else 0
  }

  lemma {:induction false} QuotesCounted(value: string)
    ensures CountQuotes(value) == Quotes(value)
  {
    if value != "" {
      QuotesCounted(value[1..]);
      assert value == [value[0]] + value[1..];
    }
  }

  lemma OnlyQuotesIff(value: string)
    ensures TrimBy(value, IsQuote) == "" <==> OnlyQuotes(value)
  {
    if OnlyQuotes(value) {
      assert value == "" + "" + value;
      AllDropped(value, "", value, IsQuote);
    } else {
      var i :| 0 <= i < |value| && !IsQuote(value[i]);
      NotTrimmedAway(value, i, IsQuote);
    }
  }

  /** A word that is a scheme has letters at its ends. */
  lemma SchemeWord(w: string, lower: string)
    requires lower == Lower(w) && (lower == "bearer" || lower == "basic")
    ensures w != "" && !NotAlphanumeric(w[0]) && !NotAlphanumeric(w[|w| - 1])
  {
    assert |w| == |lower| && lower[0] == 'b' && (lower[|w| - 1] == 'r' || lower[|w| - 1] == 'c');
  }

  lemma SchemeIffBy(value: string, less: char -> bool, drop: char -> bool, scheme: string -> bool)
    requires forall c | less(c) :: drop(c)
    requires forall w | scheme(w) :: w != "" && !drop(w[0]) && !drop(w[|w| - 1])
    ensures scheme(TrimBy(TrimBy(value, less), drop)) <==> exists a, w, b :: Wraps(value, a, w, b, drop) && scheme(w)
  {
    var word := TrimBy(TrimBy(value, less), drop);
    if scheme(word) {
      TrimTwice(value, less, drop);
      var a, b := TrimWraps(value, drop);
      assert Wraps(value, a, word, b, drop);
    }
    if a, w, b :| Wraps(value, a, w, b, drop) && scheme(w) {
      WrappedIsTrimmed(value, a, w, b, drop);
      TrimTwice(value, less, drop);
    }
  }

  lemma SchemeIff(value: string)
    ensures IsScheme(Lower(TrimBy(TrimBy(value, IsQuote), NotAlphanumeric))) <==> HoldsScheme(value)
  {
    forall w | NamesScheme(w) ensures w != "" && !NotAlphanumeric(w[0]) && !NotAlphanumeric(w[|w| - 1]) {
      SchemeWord(w, Lower(w));
    }
    SchemeIffBy(value, IsQuote, NotAlphanumeric, NamesScheme);
    SameScheme(TrimBy(TrimBy(value, IsQuote), NotAlphanumeric));
  }

  lemma SameScheme(word: string)
    ensures IsScheme(Lower(word)) <==> NamesScheme(word)
  {
  }

  lemma AfterValueIs(auth: bool, value: string)
    ensures AfterValue(auth, value) == Asked(auth, value)
  {
    SchemeIff(value);
    OnlyQuotesIff(value);
    QuotesCounted(value);
  }
}
