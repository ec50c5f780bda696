/** Where a string stands in another, and what trimming keeps of it. */
module Substrings {
  import opened Text

  predicate StandsAt(s: string, needle: string, p: nat) {
    p + |needle| <= |s| && s[p..p + |needle|] == needle
  }

  /** `needle` stands at some place in `s`. */
  ghost predicate Occurs(s: string, needle: string) {
    exists p: nat :: StandsAt(s, needle, p)
  }

  lemma {:induction false} ContainsIff(s: string, needle: string)
    ensures Contains(s, needle) <==> Occurs(s, needle)
  {
    if StartsWith(s, needle) {
      assert StandsAt(s, needle, 0);
    } else if s != "" {
      ContainsIff(s[1..], needle);
      OccursBehind(s, needle);
    } else {
      assert forall p: nat :: !StandsAt(s, needle, p);
    }
  }

  lemma StandsBehind(s: string, needle: string, p: nat)
    requires s != ""
    ensures StandsAt(s, needle, p + 1) <==> StandsAt(s[1..], needle, p)
  {
    if p + 1 + |needle| <= |s| {
      assert s[1..][p..p + |needle|] == s[p + 1..p + 1 + |needle|];
    }
  }

  lemma AtStart(s: string, needle: string)
    ensures StandsAt(s, needle, 0) <==> StartsWith(s, needle)
  {
  }

  lemma OccursBehind(s: string, needle: string)
    requires s != "" && !StartsWith(s, needle)
    ensures Occurs(s, needle) <==> Occurs(s[1..], needle)
  {
    if Occurs(s, needle) {
      var p: nat :| StandsAt(s, needle, p);
      AtStart(s, needle);
      StandsBehind(s, needle, p - 1);
    }
    if Occurs(s[1..], needle) {
      var p: nat :| StandsAt(s[1..], needle, p);
      StandsBehind(s, needle, p);
    }
  }

  lemma FirstOf(s: string, needle: string)
    requires s != "" && needle != "" && s[0] != needle[0]
    ensures !StartsWith(s, needle)
  {
    if |needle| <= |s| {
      assert s[..|needle|][0] == s[0];
    }
  }

  /** Trimming keeps what starts and ends with characters that stay. */
  lemma {:induction false} TrimStartKeepsNeedle(s: string, drop: char -> bool, needle: string)
    requires needle != "" && !drop(needle[0])
    ensures Contains(TrimStartBy(s, drop), needle) <==> Contains(s, needle)
  {
    if s != "" && drop(s[0]) {
      TrimStartKeepsNeedle(s[1..], drop, needle);
      FirstOf(s, needle);
    }
  }

  lemma {:induction false} TrimEndKeepsNeedle(s: string, drop: char -> bool, needle: string)
    requires needle != "" && !drop(needle[|needle| - 1])
    ensures Occurs(TrimEndBy(s, drop), needle) <==> Occurs(s, needle)
    decreases |s|
  {
    if s != "" && drop(s[|s| - 1]) {
      TrimEndKeepsNeedle(s[..|s| - 1], drop, needle);
      OccursBefore(s, needle);
    }
  }

  lemma StandsBefore(s: string, needle: string, p: nat)
    requires s != "" && needle != "" && s[|s| - 1] != needle[|needle| - 1]
    ensures StandsAt(s[..|s| - 1], needle, p) <==> StandsAt(s, needle, p)
  {
    var n := |needle|;
    if p + n <= |s| - 1 {
      assert s[..|s| - 1][p..p + n] == s[p..p + n];
    } else if p + n == |s| {
      assert s[p..p + n][n - 1] == s[|s| - 1];
    }
  }

  lemma OccursBefore(s: string, needle: string)
    requires s != "" && needle != "" && s[|s| - 1] != needle[|needle| - 1]
    ensures Occurs(s[..|s| - 1], needle) <==> Occurs(s, needle)
  {
    var front := s[..|s| - 1];
    if p: nat :| StandsAt(front, needle, p) {
      StandsBefore(s, needle, p);
    }
    if p: nat :| StandsAt(s, needle, p) {
      StandsBefore(s, needle, p);
    }
  }

  lemma TrimKeepsNeedle(s: string, start: char -> bool, ends: char -> bool, name: string)
    requires name != "" && !start(name[0]) && !ends(name[0]) && !ends(name[|name| - 1])
    ensures Contains(TrimBy(TrimStartBy(s, start), ends), name) <==> Occurs(s, name)
  {
    var t := TrimStartBy(s, start);
    TrimStartKeepsNeedle(s, start, name);
    TrimStartKeepsNeedle(t, ends, name);
    TrimEndKeepsNeedle(TrimStartBy(t, ends), ends, name);
    ContainsIff(s, name);
    ContainsIff(TrimStartBy(t, ends), name);
    ContainsIff(TrimBy(t, ends), name);
  }
}
