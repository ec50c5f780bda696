/** What redaction makes of each token, and of the tokens behind it, in every case. */
module TokenMeaning {
  import opened HiddenValues
  import opened Redaction
  import opened Substrings
  import opened Text
  import opened Trimming
  import opened ValueMeaning

  /** The token is split at `i`: its first `=`, or without one its first `:`. */
  predicate SplitsAt(token: string, i: nat) {
    && i < |token|
    && ((token[i] == '=' && '=' !in token[..i]) || (token[i] == ':' && '=' !in token && ':' !in token[..i]))
  }

  lemma IndexIs(s: string, c: char, i: nat)
    ensures IndexOf(s, c) == i && i < |s| <==> i < |s| && s[i] == c && c !in s[..i]
    ensures IndexOf(s, c) == |s| <==> c !in s
  {
    assert s[..|s|] == s;
    NoneBefore(s, c, IndexOf(s, c));
    if i <= |s| {
      NoneBefore(s, c, i);
    }
  }

  lemma NoneBefore(s: string, c: char, i: nat)
    requires i <= |s|
    ensures c !in s[..i] <==> forall x | 0 <= x < i :: s[x] != c
  {
    forall x | 0 <= x < i ensures s[x] in s[..i] {
      assert s[..i][x] == s[x];
    }
  }

  lemma SplitIff(token: string, i: nat)
    ensures SplitPoint(Lower(token)) == i && i < |token| <==> SplitsAt(token, i)
  {
    SplitLower(token);
    IndexIs(token, '=', i);
    IndexIs(token, ':', i);
  }

  /** A sensitive name stands in front of the split. */
  ghost predicate KeyedAt(token: string, i: nat) {
    SplitsAt(token, i) && HoldsName(Lower(token[..i]))
  }

  ghost predicate Auth(text: string) {
    Occurs(Lower(text), "auth")
  }

  /** A token with a sensitive key is masked behind the split, and the value behind it asks
      for the tokens after it. */
  lemma KeyedMeans(token: string, i: nat)
    requires KeyedAt(token, i)
    ensures Classify(token) == Verdict(token[..i] + [token[i]] + REDACTED, Asked(Auth(token[..i]), token[i + 1..]))
  {
    SplitIff(token, i);
    LowerTake(token, i);
    SensitiveIff(Lower(token[..i]));
    AuthIff(Lower(token[..i]));
    AfterValueIs(Auth(token[..i]), token[i + 1..]);
    KeyedBy(token, i, WORDS);
  }

  lemma KeyedBy(token: string, i: nat, words: Words)
    requires SplitPoint(Lower(token)) == i < |token| && words.sensitive(words.keyOf(Lower(token[..i])))
    ensures ClassifyBy(token, words) ==
            Verdict(token[..i] + [token[i]] + REDACTED, AfterValue(words.auth(words.keyOf(Lower(token[..i]))), token[i + 1..]))
  {
    LowerTake(token, i);
  }

  lemma BareBy(token: string, words: Words)
    requires var i := SplitPoint(Lower(token)); i < |token| ==> !words.sensitive(words.keyOf(Lower(token[..i])))
    ensures ClassifyBy(token, words) == BareVerdict(token, words)
  {
    LowerTake(token, SplitPoint(Lower(token)));
  }

  lemma NoKeyBefore(token: string)
    requires forall i: nat :: !KeyedAt(token, i)
    ensures Classify(token) == BareVerdict(token, WORDS)
  {
    var i := SplitPoint(Lower(token));
    SplitIff(token, i);
    if i < |token| {
      assert !KeyedAt(token, i);
      SensitiveIff(Lower(token[..i]));
    }
    BareBy(token, WORDS);
  }

  /** A sensitive name without a value of its own comes out and asks for the next token, or
      the next two if it names an authorization. */
  lemma NameMeans(token: string)
    requires (forall i: nat :: !KeyedAt(token, i)) && HoldsName(Lower(token))
    ensures Classify(token) == Verdict(token, if Auth(token) then 2 else 1)
  {
    NoKeyBefore(token);
    SensitiveIff(Lower(token));
    AuthIff(Lower(token));
  }

  /** The token is the word of a scheme, but for its case and what is around it. */
  ghost predicate BareScheme(token: string, w: string) {
    (w == "bearer" || w == "basic") && exists a, b :: Wraps(Lower(token), a, w, b, NotKeyChar)
  }

  lemma KeyIsTrimmed(lower: string)
    ensures KeyOf(lower) == TrimBy(lower, NotKeyChar)
  {
    DashesDropped();
    LessFirstTrimmed(lower, IsDash, NotKeyChar);
  }

  lemma DashesDropped()
    ensures forall c | IsDash(c) :: NotKeyChar(c)
  {
  }

  lemma BareSchemeIff(token: string, w: string)
    requires w == "bearer" || w == "basic"
    ensures KeyOf(Lower(token)) == w <==> BareScheme(token, w)
  {
    KeyIsTrimmed(Lower(token));
    SchemeEnds(w);
    if KeyOf(Lower(token)) == w {
      var a, b := TrimWraps(Lower(token), NotKeyChar);
    }
    if BareScheme(token, w) {
      var a, b :| Wraps(Lower(token), a, w, b, NotKeyChar);
      WrappedIsTrimmed(Lower(token), a, w, b, NotKeyChar);
    }
  }

  lemma SchemeEnds(w: string)
    requires w == "bearer" || w == "basic"
    ensures w != "" && !NotKeyChar(w[0]) && !NotKeyChar(w[|w| - 1])
  {
  }

  /** The word of a scheme comes out bare and asks for the next token. */
  lemma SchemeMeans(token: string, w: string)
    requires (forall i: nat :: !KeyedAt(token, i)) && !HoldsName(Lower(token)) && BareScheme(token, w)
    ensures Classify(token) == Verdict(w, 1)
  {
    NoKeyBefore(token);
    SensitiveIff(Lower(token));
    BareSchemeIff(token, w);
  }

  /** Any other token comes out as it is and asks for nothing. */
  lemma PlainMeans(token: string)
    requires (forall i: nat :: !KeyedAt(token, i)) && !HoldsName(Lower(token))
    requires !BareScheme(token, "bearer") && !BareScheme(token, "basic")
    ensures Classify(token) == Verdict(token, 0)
  {
    NoKeyBefore(token);
    SensitiveIff(Lower(token));
    BareSchemeIff(token, "bearer");
    BareSchemeIff(token, "basic");
  }

  /** Of a value still to come, its first token is asked for, or its first two. */
  lemma NothingAsks(auth: bool)
    ensures Asked(auth, "") == if auth then 2 else 1
  {
    forall a, w, b | Wraps("", a, w, b, NotAlphanumeric) ensures !NamesScheme(w) {
      assert |a + w + b| == |a| + |w| + |b|;
      assert |Lower(w)| == 0;
    }
  }

  /** Of a scheme, in any case, the next token alone. */
  lemma SchemeAsks(value: string)
    requires NamesScheme(value)
    ensures Asked(true, value) == 1
  {
    assert value == "" + value + "";
    assert Wraps(value, "", value, "", NotAlphanumeric);
  }

  /** In a text: a token that is reached unmasked comes out as its verdict says, exactly as
      many tokens behind it are masked as it asks for, and the one behind those is reached
      unmasked again. */
  lemma TokenInText(tokens: seq<string>, classify: Classifier, i: nat)
    requires i < |tokens| && MaskAt(tokens, 0, classify, i) == 0
    ensures var v := classify(tokens[i]);
            && |Redact(tokens, 0, classify)| == |tokens| && Redact(tokens, 0, classify)[i] == v.out
            && (forall j | i < j < |tokens| && j <= i + v.next :: Redact(tokens, 0, classify)[j] == REDACTED)
            && (i + v.next < |tokens| ==> MaskAt(tokens, 0, classify, i + 1 + v.next) == 0)
  {
    var n := classify(tokens[i]).next;
    RedactAt(tokens, 0, classify, i);
    AllFollowersMasked(tokens, classify, i, n);
    if 0 < n && i + n < |tokens| {
      FollowersMasked(tokens, classify, i, i + n);
      RedactAt(tokens, 0, classify, i + n);
    }
  }
}
