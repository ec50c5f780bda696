/** Which slash commands are suggested for a mistyped one: `suggest_slash_commands`. */
module SlashCommands {
  import opened Levenshtein
  import opened Sequences
  import opened Sorting
  import opened Text
  import Utf8

  datatype Spec = Spec(name: string, aliases: seq<string>)

  /** How well a candidate fits: lower is better, the rank first. */
  datatype Score = Score(rank: nat, distance: nat)

  /** A suggestion with everything it is ordered by. */
  datatype Suggestion = Suggestion(score: Score, length: nat, name: string)

  function Query(input: string): string {
    Lower(TrimStartBy(Trim(input), c => c == '/'))
  }

  function ScoreOf(candidate: string, query: string): Score {
    var rank :=
      if StartsWith(candidate, query) || StartsWith(query, candidate) then 0
      else if Contains(candidate, query) || Contains(query, candidate) then 1
      else 2;
    Score(rank, Distance(candidate, query))
  }

  predicate ScoreLe(a: Score, b: Score) {
    a.rank < b.rank || (a.rank == b.rank && a.distance <= b.distance)
  }

  /** The best score among the name of a command and its aliases. */
  function BestScore(best: Score, aliases: seq<string>, query: string): Score
    decreases |aliases|
  {
    if aliases == [] then best
    else
      var s := ScoreOf(Lower(aliases[0]), query);
      BestScore(if ScoreLe(best, s) then best else s, aliases[1..], query)
  }

  function SpecScore(spec: Spec, query: string): Score {
    BestScore(ScoreOf(Lower(spec.name), query), spec.aliases, query)
  }

  predicate Close(s: Score) {
    s.rank <= 1 || s.distance <= 2
  }

  function SuggestionFor(spec: Spec, query: string): Suggestion {
    Suggestion(SpecScore(spec, query), |Utf8.Encode(spec.name)|, spec.name)
  }

  /** The suggestion of one command, if it comes close enough. */
  function OfSpec(spec: Spec, query: string): seq<Suggestion> {
    if Close(SpecScore(spec, query)) then [SuggestionFor(spec, query)] else []
  }

  function Matching(specs: seq<Spec>, query: string): seq<Suggestion> {
    if specs == [] then [] else OfSpec(specs[0], query) + Matching(specs[1..], query)
  }

  /** Strings in the order of their characters, which is also that of their UTF-8 bytes. */
  predicate NameLe(a: string, b: string) {
    a == "" || (b != "" && (a[0] < b[0] || (a[0] == b[0] && NameLe(a[1..], b[1..]))))
  }

  predicate SuggestionLe(a: Suggestion, b: Suggestion) {
    if a.score != b.score then ScoreLe(a.score, b.score)
    else if a.length != b.length then a.length < b.length
    else NameLe(a.name, b.name)
  }

  function SlashNames(ms: seq<Suggestion>): seq<string> {
    Map((m: Suggestion) => "/" + m.name, ms)
  }

  function Suggestions(specs: seq<Spec>, query: string, limit: nat): seq<string> {
    if query == "" || limit == 0 then []
    else Take(SlashNames(Sort(Matching(specs, query), SuggestionLe)), limit)
  }

  // ----- The order is total, so the unstable sort has one possible result -----

  lemma {:induction false} NameLeTotal(a: string, b: string)
    ensures NameLe(a, b) || NameLe(b, a)
    ensures NameLe(a, b) && NameLe(b, a) ==> a == b
  {
    if a != "" && b != "" {
      NameLeTotal(a[1..], b[1..]);
      assert a == [a[0]] + a[1..] && b == [b[0]] + b[1..];
    }
  }

  lemma {:induction false} NameLeTransitive(a: string, b: string, c: string)
    requires NameLe(a, b) && NameLe(b, c)
    ensures NameLe(a, c)
  {
    if a != "" && a[0] == b[0] == c[0] {
      NameLeTransitive(a[1..], b[1..], c[1..]);
    }
  }

  lemma SuggestionsOrdered()
    ensures TotalPreorder(SuggestionLe)
    ensures forall x, y :: SuggestionLe(x, y) && SuggestionLe(y, x) ==> x == y
  {
    forall x, y
      ensures SuggestionLe(x, y) || SuggestionLe(y, x)
      ensures SuggestionLe(x, y) && SuggestionLe(y, x) ==> x == y
    {
      NameLeTotal(x.name, y.name);
    }
    forall x, y, z | SuggestionLe(x, y) && SuggestionLe(y, z) ensures SuggestionLe(x, z) {
      if NameLe(x.name, y.name) && NameLe(y.name, z.name) {
        NameLeTransitive(x.name, y.name, z.name);
      }
    }
  }

  /** Whatever way the suggestions are put in order, the same names come out. */
  lemma AnySortGivesSuggestions(specs: seq<Spec>, query: string, limit: nat, sorted: seq<Suggestion>)
    requires query != "" && limit > 0
    requires multiset(sorted) == multiset(Matching(specs, query)) && Sorted(sorted, SuggestionLe)
    ensures Suggestions(specs, query, limit) == Take(SlashNames(sorted), limit)
  {
    var ms := Matching(specs, query);
    SuggestionsOrdered();
    SortSorts(ms, SuggestionLe);
    SortKeeps(ms, SuggestionLe);
    SortedUnique(sorted, Sort(ms, SuggestionLe), SuggestionLe);
  }

  // ----- What is suggested -----

  /** Some spelling of the command has this score, and none has a better one. */
  ghost predicate IsBestScore(s: Score, spec: Spec, query: string) {
    && (exists n | n in [spec.name] + spec.aliases :: s == ScoreOf(Lower(n), query))
    && (forall n | n in [spec.name] + spec.aliases :: ScoreLe(s, ScoreOf(Lower(n), query)))
  }

  lemma {:induction false} BestScoreIsBest(best: Score, aliases: seq<string>, query: string)
    ensures var s := BestScore(best, aliases, query);
            && (s == best || exists n | n in aliases :: s == ScoreOf(Lower(n), query))
            && ScoreLe(s, best) && forall n | n in aliases :: ScoreLe(s, ScoreOf(Lower(n), query))
    decreases |aliases|
  {
    if aliases != [] {
      var first := ScoreOf(Lower(aliases[0]), query);
      var better := if ScoreLe(best, first) then best else first;
      BestScoreIsBest(better, aliases[1..], query);
      var s := BestScore(better, aliases[1..], query);
      assert ScoreLe(s, first) && aliases[0] in aliases;
      forall n | n in aliases ensures ScoreLe(s, ScoreOf(Lower(n), query)) {
        assert n == aliases[0] || n in aliases[1..];
      }
    }
  }

  lemma SpecScoreIsBest(spec: Spec, query: string)
    ensures IsBestScore(SpecScore(spec, query), spec, query)
  {
    BestScoreIsBest(ScoreOf(Lower(spec.name), query), spec.aliases, query);
    var names := [spec.name] + spec.aliases;
    assert spec.name == names[0] && spec.name in names;
    assert forall n :: n in names <==> n == spec.name || n in spec.aliases;
  }

  lemma {:induction false} MatchingIsClose(specs: seq<Spec>, query: string, m: Suggestion)
    ensures m in Matching(specs, query) <==>
            exists spec | spec in specs :: Close(SpecScore(spec, query)) && m == SuggestionFor(spec, query)
  {
    if specs != [] {
      MatchingIsClose(specs[1..], query, m);
      assert forall spec :: spec in specs <==> spec == specs[0] || spec in specs[1..];
    }
  }

  /** The suggestions are the best `limit` commands that come close, and no others: each is
      a close command, in order, and every close command left out comes after all of them. */
  lemma SuggestionsAreBest(specs: seq<Spec>, query: string, limit: nat) returns (ms: seq<Suggestion>, rest: seq<Suggestion>)
    requires query != "" && limit > 0
    ensures Suggestions(specs, query, limit) == SlashNames(ms)
    ensures multiset(ms) + multiset(rest) == multiset(Matching(specs, query))
    ensures |ms| <= limit && (|ms| == limit || rest == [])
    ensures Sorted(ms, SuggestionLe) && forall m, n | m in ms && n in rest :: SuggestionLe(m, n)
  {
    var all := Matching(specs, query);
    ms, rest := BestFirst(all, limit);
    var sorted := Sort(all, SuggestionLe);
    assert SlashNames(ms) == Take(SlashNames(sorted), limit);
  }

  lemma BestFirst(all: seq<Suggestion>, limit: nat) returns (ms: seq<Suggestion>, rest: seq<Suggestion>)
    ensures ms == Take(Sort(all, SuggestionLe), limit) && ms + rest == Sort(all, SuggestionLe)
    ensures multiset(ms) + multiset(rest) == multiset(all)
    ensures Sorted(ms, SuggestionLe) && forall m, n | m in ms && n in rest :: SuggestionLe(m, n)
  {
    var sorted := Sort(all, SuggestionLe);
    var k := if limit <= |sorted| then limit else |sorted|;
    ms, rest := sorted[..k], sorted[k..];
    assert sorted == ms + rest;
    SortKeeps(all, SuggestionLe);
    SuggestionsOrdered();
    SortSorts(all, SuggestionLe);
    forall m, n | m in ms && n in rest ensures SuggestionLe(m, n) {
      FirstBeforeRest(sorted, k, SuggestionLe, m, n);
    }
  }

  /** How a command may be spelled. */
  function Spellings(spec: Spec): seq<string> {
    [spec.name] + spec.aliases
  }

  lemma PerfectScore(candidate: string, query: string)
    ensures ScoreOf(candidate, query) == Score(0, 0) <==> candidate == query
  {
    DistanceIsMetric(candidate, query, query);
  }

  lemma PerfectSpec(spec: Spec, query: string)
    ensures SpecScore(spec, query) == Score(0, 0) <==> exists n :: n in Spellings(spec) && Lower(n) == query
  {
    SpecScoreIsBest(spec, query);
    if n :| n in Spellings(spec) && Lower(n) == query {
      PerfectScore(Lower(n), query);
    }
    if SpecScore(spec, query) == Score(0, 0) {
      var n :| n in [spec.name] + spec.aliases && Score(0, 0) == ScoreOf(Lower(n), query);
      PerfectScore(Lower(n), query);
      assert n in Spellings(spec);
    }
  }

  /** A query that is a command's own spelling suggests a command spelled so first. */
  lemma ExactMatchFirst(specs: seq<Spec>, query: string, limit: nat, spec: Spec, spelling: string) returns (first: Spec)
    requires query != "" && limit > 0
    requires spec in specs && spelling in Spellings(spec) && Lower(spelling) == query
    ensures first in specs && exists n :: n in Spellings(first) && Lower(n) == query
    ensures Suggestions(specs, query, limit) != [] && Suggestions(specs, query, limit)[0] == "/" + first.name
  {
    PerfectSpec(spec, query);
    var ms, rest := SuggestionsAreBest(specs, query, limit);
    var m := SuggestionFor(spec, query);
    MatchingIsClose(specs, query, m);
    var best := HeadIsBest(Matching(specs, query), ms, rest, m);
    MatchingIsClose(specs, query, best);
    first :| first in specs && Close(SpecScore(first, query)) && best == SuggestionFor(first, query);
    PerfectSpec(first, query);
  }

  lemma HeadIsBest(all: seq<Suggestion>, ms: seq<Suggestion>, rest: seq<Suggestion>, m: Suggestion) returns (best: Suggestion)
    requires multiset(ms) + multiset(rest) == multiset(all) && m in all
    requires Sorted(ms, SuggestionLe) && forall m, n | m in ms && n in rest :: SuggestionLe(m, n)
    requires ms != [] || rest == []
    ensures ms != [] && best == ms[0] && best in all && SuggestionLe(best, m)
  {
    assert m in multiset(all);
    assert m in multiset(ms) || m in multiset(rest);
    best := ms[0];
    assert best in multiset(ms) && best in multiset(all);
    SuggestionsOrdered();
    if m in ms {
      var i: nat :| i < |ms| && ms[i] == m;
    }
  }

  /** A slash put in front of the input is no part of the query if and only if the input is
      blank or starts with what is kept of it: blanks behind the slash are not trimmed. */
  lemma SlashIgnoredIff(input: string)
    ensures Query("/" + input) == Query(input) <==> Trim(input) == "" || !IsWhitespace(input[0])
  {
    TrimStartKeeps("/" + input, IsWhitespace);
    TrimEndTail("/", input, IsWhitespace);
    TrimStartDrops('/', TrimEndBy(input, IsWhitespace), c => c == '/');
    SlashInFront(input, IsWhitespace, c => c == '/');
  }

  lemma SlashInFront(input: string, ws: char -> bool, slash: char -> bool)
    requires forall c :: ws(c) ==> !slash(c)
    ensures Lower(TrimStartBy(TrimEndBy(input, ws), slash)) == Lower(TrimStartBy(TrimBy(input, ws), slash)) <==>
            TrimBy(input, ws) == "" || !ws(input[0])
  {
    var x := TrimEndBy(input, ws);
    TrimCommutes(input, ws);
    if x != "" {
      TrimEndStops(input, ws);
      TrimStartLeaves(x, ws);
      assert x[0] == input[0];
      if ws(x[0]) {
        BlankBehindSlash(x, ws, slash);
      } else {
        TrimStartKeeps(x, ws);
      }
    }
  }

  /** A blank that comes first stops the trimming of slashes, and is trimmed without one. */
  lemma BlankBehindSlash(x: string, ws: char -> bool, slash: char -> bool)
    requires x != "" && ws(x[0]) && !slash(x[0])
    ensures |TrimStartBy(x, slash)| == |x| && |TrimStartBy(TrimStartBy(x, ws), slash)| < |x|
  {
    TrimStartKeeps(x, slash);
  }

  method SuggestSlashCommands(specs: seq<Spec>, input: string, limit: nat) returns (r: seq<string>)
    ensures r == Suggestions(specs, Query(input), limit)
  {
    var query := Query(input);
    if query == "" || limit == 0 {
      return [];
    }
    var suggestions := CollectLoop(specs, query);
    suggestions := Sort(suggestions, SuggestionLe);
    r := Take(SlashNames(suggestions), limit);
  }

  method CollectLoop(specs: seq<Spec>, query: string) returns (suggestions: seq<Suggestion>)
    ensures suggestions == Matching(specs, query)
  {
    suggestions := [];
    for i := 0 to |specs|
      invariant suggestions + Matching(specs[i..], query) == Matching(specs, query)
    {
      var found := FilterLoop(specs[i], query);
      MatchingStep(suggestions, specs, i, found, query);
      suggestions := suggestions + found;
    }
  }

  lemma MatchingStep(before: seq<Suggestion>, specs: seq<Spec>, i: nat, found: seq<Suggestion>, query: string)
    requires i < |specs| && found == OfSpec(specs[i], query)
    ensures (before + found) + Matching(specs[i + 1..], query) == before + Matching(specs[i..], query)
  {
    assert specs[i..][1..] == specs[i + 1..];
    ConcatAssociative(before, found, Matching(specs[i + 1..], query));
  }

  method FilterLoop(spec: Spec, query: string) returns (found: seq<Suggestion>)
    ensures found == OfSpec(spec, query)
  {
    var score := SpecScoreLoop(spec, query);
    if score.rank <= 1 || score.distance <= 2 {
      found := [Suggestion(score, |Utf8.Encode(spec.name)|, spec.name)];
    } else {
      found := [];
    }
  }

  /** The score of a command, with its distances from the two-row computation. */
  method SpecScoreLoop(spec: Spec, query: string) returns (best: Score)
    ensures best == SpecScore(spec, query)
  {
    best := ScoreLoop(Lower(spec.name), query);
    for i := 0 to |spec.aliases|
      invariant BestScore(best, spec.aliases[i..], query) == SpecScore(spec, query)
    {
      assert spec.aliases[i..][1..] == spec.aliases[i + 1..];
      var s := ScoreLoop(Lower(spec.aliases[i]), query);
      if !ScoreLe(best, s) {
        best := s;
      }
    }
  }

  method ScoreLoop(candidate: string, query: string) returns (s: Score)
    ensures s == ScoreOf(candidate, query)
  {
    var rank := 2;
    if StartsWith(candidate, query) || StartsWith(query, candidate) {
      rank := 0;
    } else if Contains(candidate, query) || Contains(query, candidate) {
      rank := 1;
    }
    var distance := LevenshteinDistance(candidate, query);
    s := Score(rank, distance);
  }
}
