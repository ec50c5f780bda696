/** Which commands are suggested, told from their spellings. */
module SuggestionMeaning {
  import opened Levenshtein
  import opened SlashCommands
  import opened Substrings
  import opened Text
  import opened Trimming
  import Utf8

  /** One of the two starts with the other. */
  predicate Prefixed(c: string, query: string) {
    c <= query || query <= c
  }

  /** One of the two stands in the other. */
  ghost predicate Inside(c: string, query: string) {
    Occurs(c, query) || Occurs(query, c)
  }

  lemma StartsIsPrefix(s: string, prefix: string)
    ensures StartsWith(s, prefix) <==> prefix <= s
  {
  }

  /** A candidate is ranked by prefix before containment before the rest, then by the number
      of edits. */
  lemma ScoreMeans(c: string, query: string)
    ensures var s := ScoreOf(c, query);
            && s.distance == Distance(c, query)
            && (s.rank == 0 <==> Prefixed(c, query))
            && (s.rank == 1 <==> !Prefixed(c, query) && Inside(c, query))
            && (s.rank == 2 <==> !Prefixed(c, query) && !Inside(c, query))
  {
    StartsIsPrefix(c, query);
    StartsIsPrefix(query, c);
    ContainsIff(c, query);
    ContainsIff(query, c);
  }

  /** Some spelling of the command starts with the query or the query with it, holds it or is
      held by it, or is at most two edits away. */
  ghost predicate Near(spec: Spec, query: string) {
    exists n | n in Spellings(spec) ::
      Prefixed(Lower(n), query) || Inside(Lower(n), query) || Distance(Lower(n), query) <= 2
  }

  lemma CloseMeans(spec: Spec, query: string)
    ensures Close(SpecScore(spec, query)) <==> Near(spec, query)
  {
    var s := SpecScore(spec, query);
    SpecScoreIsBest(spec, query);
    forall n | n in Spellings(spec)
      ensures ScoreOf(Lower(n), query).rank <= 2 && ScoreLe(s, ScoreOf(Lower(n), query))
      ensures Close(ScoreOf(Lower(n), query)) <==>
              Prefixed(Lower(n), query) || Inside(Lower(n), query) || Distance(Lower(n), query) <= 2
    {
      ScoreMeans(Lower(n), query);
    }
    if Close(s) {
      var n :| n in [spec.name] + spec.aliases && s == ScoreOf(Lower(n), query);
      assert n in Spellings(spec);
    }
    if Near(spec, query) {
      var n :| n in Spellings(spec) && (Prefixed(Lower(n), query) || Inside(Lower(n), query) || Distance(Lower(n), query) <= 2);
      assert Close(ScoreOf(Lower(n), query));
    }
  }

  /** What is suggested are slashed names of commands that are near, as many as were asked
      for; and all of them if there are no more. */
  lemma SuggestedIff(specs: seq<Spec>, query: string, limit: nat, name: string)
    requires query != "" && limit > 0
    ensures "/" + name in Suggestions(specs, query, limit) ==> exists spec | spec in specs :: spec.name == name && Near(spec, query)
    ensures |Suggestions(specs, query, limit)| < limit ==>
              ("/" + name in Suggestions(specs, query, limit) <==> exists spec | spec in specs :: spec.name == name && Near(spec, query))
  {
    var ms, rest := SuggestionsAreBest(specs, query, limit);
    SlashedNames(ms, name);
    if m :| m in ms && m.name == name {
      InAll(specs, query, ms, rest, m);
      MatchingIsClose(specs, query, m);
      var spec :| spec in specs && Close(SpecScore(spec, query)) && m == SuggestionFor(spec, query);
      CloseMeans(spec, query);
    }
    if |ms| < limit {
      if spec :| spec in specs && spec.name == name && Near(spec, query) {
        CloseMeans(spec, query);
        var m := SuggestionFor(spec, query);
        MatchingIsClose(specs, query, m);
        InAll(specs, query, ms, rest, m);
      }
    }
  }

  lemma InAll(specs: seq<Spec>, query: string, ms: seq<Suggestion>, rest: seq<Suggestion>, m: Suggestion)
    requires multiset(ms) + multiset(rest) == multiset(Matching(specs, query))
    ensures m in ms ==> m in Matching(specs, query)
    ensures rest == [] && m in Matching(specs, query) ==> m in ms
  {
    assert m in multiset(ms) <==> m in ms;
    assert m in multiset(Matching(specs, query)) <==> m in Matching(specs, query);
  }

  lemma SlashedNames(ms: seq<Suggestion>, name: string)
    ensures |SlashNames(ms)| == |ms|
    ensures "/" + name in SlashNames(ms) <==> exists m | m in ms :: m.name == name
  {
    var names := SlashNames(ms);
    if "/" + name in names {
      var i :| 0 <= i < |names| && names[i] == "/" + name;
      assert names[i] == "/" + ms[i].name;
      SameBehindSlash(ms[i].name, name);
    }
    if m :| m in ms && m.name == name {
      var i :| 0 <= i < |ms| && ms[i] == m;
      assert names[i] == "/" + name;
    }
  }

  lemma SameBehindSlash(a: string, b: string)
    requires "/" + a == "/" + b
    ensures a == b
  {
    assert ("/" + a)[1..] == a && ("/" + b)[1..] == b;
  }

  /** Everything that suggestions are ordered by, each only where those before are equal: the
      rank, the distance, the length in bytes, the name. */
  predicate InOrder(a: Suggestion, b: Suggestion) {
    || a.score.rank < b.score.rank
    || (a.score.rank == b.score.rank && a.score.distance < b.score.distance)
    || (a.score == b.score && a.length < b.length)
    || (a.score == b.score && a.length == b.length && NameLe(a.name, b.name))
  }

  /** The suggestions come in that order, each with its best score and its length. */
  lemma SuggestionsInOrder(specs: seq<Spec>, query: string, limit: nat, i: nat, j: nat) returns (ms: seq<Suggestion>)
    requires query != "" && limit > 0 && i < j < |Suggestions(specs, query, limit)|
    ensures |ms| == |Suggestions(specs, query, limit)| && InOrder(ms[i], ms[j])
    ensures Suggestions(specs, query, limit)[i] == "/" + ms[i].name && Suggestions(specs, query, limit)[j] == "/" + ms[j].name
    ensures exists spec | spec in specs ::
              spec.name == ms[i].name && IsBestScore(ms[i].score, spec, query) && ms[i].length == |Utf8.Encode(spec.name)|
  {
    var rest;
    ms, rest := SuggestionsAreBest(specs, query, limit);
    SlashedNames(ms, ms[i].name);
    assert SuggestionLe(ms[i], ms[j]);
    assert ms[i] in ms;
    InAll(specs, query, ms, rest, ms[i]);
    MatchingIsClose(specs, query, ms[i]);
    var spec :| spec in specs && Close(SpecScore(spec, query)) && ms[i] == SuggestionFor(spec, query);
    SpecScoreIsBest(spec, query);
  }

  // ----- The query -----

  predicate OnlySlashes(s: string) {
    forall c | c in s :: c == '/'
  }

  lemma QueryBy(before: string, slashes: string, text: string, behind: string, ws: char -> bool, slash: char -> bool)
    requires (forall c | c in before :: ws(c)) && (forall c | c in behind :: ws(c)) && OnlySlashes(slashes)
    requires (forall c :: slash(c) <==> c == '/') && !ws('/')
    requires text != "" && !ws(text[|text| - 1]) && text[0] != '/' && (slashes == "" ==> !ws(text[0]))
    ensures TrimStartBy(TrimBy(before + (slashes + text) + behind, ws), slash) == text
  {
    var core := slashes + text;
    assert slashes != "" ==> slashes[0] in slashes;
    assert core[|core| - 1] == text[|text| - 1];
    WrappedIsTrimmed(before + core + behind, before, core, behind, ws);
    TrimStartOf(slashes, text, slash);
  }

  lemma SlashIsNoBlank()
    ensures !IsWhitespace('/')
  {
  }

  /** The query is what is left in lower case without blanks around it and slashes in front. */
  lemma QueryIs(before: string, slashes: string, text: string, behind: string)
    requires (forall c | c in before :: IsWhitespace(c)) && (forall c | c in behind :: IsWhitespace(c)) && OnlySlashes(slashes)
    requires text != "" && !IsWhitespace(text[|text| - 1]) && text[0] != '/' && (slashes == "" ==> !IsWhitespace(text[0]))
    ensures Query(before + (slashes + text) + behind) == Lower(text)
  {
    SlashIsNoBlank();
    QueryBy(before, slashes, text, behind, IsWhitespace, c => c == '/');
  }

  /** Slashes alone, with blanks around them, suggest nothing. */
  lemma SlashesSuggestNothing(specs: seq<Spec>, before: string, slashes: string, behind: string, limit: nat)
    requires (forall c | c in before :: IsWhitespace(c)) && (forall c | c in behind :: IsWhitespace(c)) && OnlySlashes(slashes)
    ensures Suggestions(specs, Query(before + slashes + behind), limit) == []
  {
    var query := Query(before + slashes + behind);
    assert query == "" by {
      SlashIsNoBlank();
      AllTrimmed(before, slashes, behind, IsWhitespace, c => c == '/');
    }
    NoQuery(specs, query, limit);
  }

  lemma NoQuery(specs: seq<Spec>, query: string, limit: nat)
    requires query == ""
    ensures Suggestions(specs, query, limit) == []
  {
  }

  lemma AllTrimmed(before: string, slashes: string, behind: string, ws: char -> bool, slash: char -> bool)
    requires (forall c | c in before :: ws(c)) && (forall c | c in behind :: ws(c)) && OnlySlashes(slashes)
    requires (forall c :: slash(c) <==> c == '/') && !ws('/')
    ensures TrimStartBy(TrimBy(before + slashes + behind, ws), slash) == ""
  {
    assert slashes != "" ==> slashes[0] in slashes && slashes[|slashes| - 1] in slashes;
    TrimmedIs(before + slashes + behind, before, slashes, behind, ws);
    TrimStartOf(slashes, "", slash);
    assert slashes + "" == slashes;
  }
}
