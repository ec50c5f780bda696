/** What the skill listing holds, told from the directory entries, and that every listed
    skill can be resolved. */
module SkillListing {
  import opened Skills
  import opened Sorting
  import opened Text
  import opened Trimming
  import opened Wrappers
  import SlashCommands

  /** A directory with a SKILL.md, or in a legacy root a markdown file that is no directory. */
  predicate HoldsSkill(root: SkillRoot, e: DirEntry) {
    || (e.isDir && e.hasSkillMd)
    || (root.origin == LegacyCommandsDir && !e.isDir && e.isMarkdown)
  }

  /** The name its front matter gives; else that of the directory in a skills root, the stem
      of the file in a legacy root: SKILL for a directory, as SKILL.md is the file. */
  predicate NamedFor(root: SkillRoot, e: DirEntry, front: Frontmatter, name: string) {
    && (front.name.Some? ==> name == front.name.value)
    && (front.name.None? && root.origin == SkillsDir ==> name == e.fileName)
    && (front.name.None? && root.origin == LegacyCommandsDir && e.isDir ==> name == "SKILL")
    && (front.name.None? && root.origin == LegacyCommandsDir && !e.isDir ==> name == e.stem)
  }

  /** The file that holds the skill. */
  predicate HeldBy(root: SkillRoot, e: DirEntry, file: Path) {
    file == if e.isDir then SkillMdPath(root.path, e.fileName) else EntryPath(root.path, e.fileName)
  }

  /** The listing shows the entry so: in a skills root by its directory, else by its file. */
  predicate Shows(root: SkillRoot, e: DirEntry, s: SkillSummary) {
    && HoldsSkill(root, e) && e.contents.Some?
    && NamedFor(root, e, e.contents.value, s.name) && s.description == e.contents.value.description
    && s.source == root.source && s.origin == root.origin && s.shadowedBy == None
    && (if root.origin == SkillsDir then s.path == EntryPath(root.path, e.fileName) else HeldBy(root, e, s.path))
  }

  ghost predicate ShownBy(root: SkillRoot, es: seq<DirEntry>, s: SkillSummary) {
    exists e | e in es :: Shows(root, e, s)
  }

  lemma SummaryShows(root: SkillRoot, e: DirEntry, s: SkillSummary)
    ensures IsSkill(root.origin, e) <==> HoldsSkill(root, e)
    ensures HoldsSkill(root, e) && e.contents.Some? ==> (Shows(root, e, s) <==> s == Summary(root, e))
  {
  }

  lemma {:induction false} RootListed(root: SkillRoot, es: seq<DirEntry>, s: SkillSummary)
    requires RootSkills(root, es).Some?
    ensures s in RootSkills(root, es).value <==> ShownBy(root, es, s)
  {
    if es != [] {
      RootListed(root, es[1..], s);
      SummaryShows(root, es[0], s);
      assert forall e :: e in es <==> e == es[0] || e in es[1..];
      assert ShownBy(root, es, s) <==> Shows(root, es[0], s) || ShownBy(root, es[1..], s);
    }
  }

  /** A skill whose markdown cannot be read. */
  ghost predicate Unreadable(root: SkillRoot, es: seq<DirEntry>) {
    exists e | e in es :: HoldsSkill(root, e) && e.contents.None?
  }

  lemma {:induction false} RootFailsIff(root: SkillRoot, es: seq<DirEntry>)
    ensures RootSkills(root, es).None? <==> Unreadable(root, es)
  {
    if es != [] {
      RootFailsIff(root, es[1..]);
      assert IsSkill(root.origin, es[0]) <==> HoldsSkill(root, es[0]);
      assert forall e :: e in es <==> e == es[0] || e in es[1..];
    }
  }

  function CountSkills(root: SkillRoot, es: seq<DirEntry>): nat {
    if es == [] then 0 else (if HoldsSkill(root, es[0]) then 1 else 0) + CountSkills(root, es[1..])
  }

  lemma {:induction false} RootCounted(root: SkillRoot, es: seq<DirEntry>)
    requires RootSkills(root, es).Some?
    ensures |RootSkills(root, es).value| == CountSkills(root, es)
  {
    if es != [] {
      RootCounted(root, es[1..]);
      assert IsSkill(root.origin, es[0]) <==> HoldsSkill(root, es[0]);
    }
  }

  // ----- All roots -----

  ghost predicate RootShows(root: SkillRoot, s: SkillSummary) {
    root.listing.Some? && ShownBy(root, root.listing.value, s)
  }

  ghost predicate Found(roots: seq<SkillRoot>, s: SkillSummary) {
    exists root | root in roots :: RootShows(root, s)
  }

  ghost predicate RootFails(root: SkillRoot) {
    root.listing.None? || Unreadable(root, root.listing.value)
  }

  function CountAll(roots: seq<SkillRoot>): nat {
    if roots == [] then 0
    else (if roots[0].listing.Some? then CountSkills(roots[0], roots[0].listing.value) else 0) + CountAll(roots[1..])
  }

  lemma SortedRootShows(root: SkillRoot, s: SkillSummary)
    ensures SortedRoot(root).None? <==> RootFails(root)
    ensures SortedRoot(root).Some? ==> (s in SortedRoot(root).value <==> RootShows(root, s))
    ensures SortedRoot(root).Some? ==> |SortedRoot(root).value| == CountSkills(root, root.listing.value)
  {
    if root.listing.Some? {
      var es := root.listing.value;
      RootFailsIff(root, es);
      if RootSkills(root, es).Some? {
        RootListed(root, es, s);
        RootCounted(root, es);
        SortMembers(RootSkills(root, es).value, SummaryLe, s);
        SortKeeps(RootSkills(root, es).value, SummaryLe);
      }
    }
  }

  lemma {:induction false} AllListed(roots: seq<SkillRoot>, s: SkillSummary)
    ensures AllSkills(roots).None? <==> exists root | root in roots :: RootFails(root)
    ensures AllSkills(roots).Some? ==> (s in AllSkills(roots).value <==> Found(roots, s))
    ensures AllSkills(roots).Some? ==> |AllSkills(roots).value| == CountAll(roots)
  {
    if roots != [] {
      AllListed(roots[1..], s);
      SortedRootShows(roots[0], s);
      assert forall root :: root in roots <==> root == roots[0] || root in roots[1..];
      assert Found(roots, s) <==> RootShows(roots[0], s) || Found(roots[1..], s);
    }
  }

  /** The listing holds the skill, shadowed or not. */
  ghost predicate Listed(ss: seq<SkillSummary>, s: SkillSummary) {
    exists k: nat | k < |ss| :: ss[k].(shadowedBy := None) == s
  }

  lemma MarkedLists(ss: seq<SkillSummary>, s: SkillSummary)
    requires Unmarked(ss)
    ensures |Mark(ss, map[])| == |ss|
    ensures Listed(Mark(ss, map[]), s) <==> s in ss
  {
    forall k: nat | k < |ss| ensures |Mark(ss, map[])| == |ss| && Mark(ss, map[])[k].(shadowedBy := None) == ss[k] {
      MarkAt(ss, map[], k);
    }
    if s in ss {
      var k: nat :| k < |ss| && ss[k] == s;
      assert Mark(ss, map[])[k].(shadowedBy := None) == s;
    }
  }

  /** The listing fails exactly if a root or a skill in one cannot be read; else it holds
      exactly the skills of all roots, each entry once. */
  lemma ListingIff(roots: seq<SkillRoot>, s: SkillSummary)
    ensures LoadSkills(roots).None? <==> exists root | root in roots :: RootFails(root)
    ensures LoadSkills(roots).Some? ==> |LoadSkills(roots).value| == CountAll(roots)
    ensures LoadSkills(roots).Some? ==> (Listed(LoadSkills(roots).value, s) <==> Found(roots, s))
  {
    AllListed(roots, s);
    if AllSkills(roots).Some? {
      AllSkillsUnmarked(roots);
      if AllSkills(roots).value == [] {
        assert Mark([], map[]) == [];
      } else {
        MarkedLists(AllSkills(roots).value, s);
      }
    }
  }

  // ----- Resolving what is listed -----

  lemma {:induction false} FirstIsIn(ss: seq<SkillSummary>, requested: string)
    ensures First(ss, requested).Some? ==> First(ss, requested).value in ss && SameName(First(ss, requested).value.name, requested)
    ensures First(ss, requested).None? ==> forall s | s in ss :: !SameName(s.name, requested)
  {
    if ss != [] {
      FirstIsIn(ss[1..], requested);
    }
  }

  /** The path is the file of a skill with that name, ignoring case, in one of the roots. */
  ghost predicate IsFileOf(roots: seq<SkillRoot>, requested: string, file: Path) {
    exists root, e | root in roots && root.listing.Some? && e in root.listing.value ::
      HoldsSkill(root, e) && HeldBy(root, e, file) && e.contents.Some?
      && exists name :: NamedFor(root, e, e.contents.value, name) && Lower(name) == Lower(requested)
  }

  lemma ShownFile(root: SkillRoot, e: DirEntry, s: SkillSummary)
    requires Shows(root, e, s)
    ensures HeldBy(root, e, FileOf(s))
  {
  }

  lemma FoundFile(roots: seq<SkillRoot>, s: SkillSummary, requested: string)
    requires Found(roots, s) && SameName(s.name, requested)
    ensures IsFileOf(roots, requested, FileOf(s))
  {
    var root :| root in roots && RootShows(root, s);
    var e :| e in root.listing.value && Shows(root, e, s);
    ShownFile(root, e, s);
    assert NamedFor(root, e, e.contents.value, s.name) && Lower(s.name) == Lower(requested);
  }

  /** Where the listing succeeds, a name can be resolved exactly if a skill is listed under
      it, ignoring case; and what it is resolved to is the file of such a skill. */
  lemma ListedResolves(roots: seq<SkillRoot>, typed: string)
    requires LoadSkills(roots).Some? && Requested(typed) != ""
    ensures ResolveSkill(roots, typed).Ok? <==>
            exists s | s in AllSkills(roots).value :: Lower(s.name) == Lower(Requested(typed))
    ensures ResolveSkill(roots, typed).Ok? ==> IsFileOf(roots, Requested(typed), ResolveSkill(roots, typed).value)
  {
    var all, requested := AllSkills(roots).value, Requested(typed);
    ResolveIsFirst(roots, requested);
    FirstIsIn(all, requested);
    if First(all, requested).Some? {
      var s := First(all, requested).value;
      AllListed(roots, s);
      FoundFile(roots, s, requested);
    }
  }

  // ----- What the user types -----

  /** All characters are this one. */
  predicate Only(s: string, c: char) {
    forall x | x in s :: x == c
  }

  lemma FrontOf(slashes: string, dollars: string, name: string)
    requires name != "" && Only(slashes, '/') && Only(dollars, '$')
    ensures var core := slashes + (dollars + name);
            core[|core| - 1] == name[|name| - 1] && (core[0] == '/' || core[0] == '$' || core[0] == name[0])
    ensures (dollars + name)[0] == '$' || (dollars + name)[0] == name[0]
  {
    if dollars != "" {
      assert dollars[0] in dollars;
    }
    if slashes != "" {
      assert slashes[0] in slashes;
    }
  }

  lemma RequestedBy(before: string, slashes: string, dollars: string, name: string, behind: string,
                    ws: char -> bool, slash: char -> bool, dollar: char -> bool)
    requires (forall c | c in before :: ws(c)) && (forall c | c in behind :: ws(c)) && Only(slashes, '/') && Only(dollars, '$')
    requires (forall c :: slash(c) <==> c == '/') && (forall c :: dollar(c) <==> c == '$')
    requires !ws('/') && !ws('$') && name != "" && !ws(name[|name| - 1]) && !ws(name[0]) && name[0] != '/' && name[0] != '$'
    ensures TrimStartBy(TrimStartBy(TrimBy(before + (slashes + (dollars + name)) + behind, ws), slash), dollar) == name
  {
    var core := slashes + (dollars + name);
    FrontOf(slashes, dollars, name);
    WrappedIsTrimmed(before + core + behind, before, core, behind, ws);
    TrimStartOf(slashes, dollars + name, slash);
    TrimStartOf(dollars, name, dollar);
  }

  lemma NoMarkIsBlank()
    ensures !IsWhitespace('/') && !IsWhitespace('$')
  {
  }

  /** Blanks around it, slashes and then dollar signs in front of it are not part of a name. */
  lemma RequestedIs(before: string, slashes: string, dollars: string, name: string, behind: string)
    requires (forall c | c in before :: IsWhitespace(c)) && (forall c | c in behind :: IsWhitespace(c))
    requires Only(slashes, '/') && Only(dollars, '$')
    requires name != "" && !IsWhitespace(name[|name| - 1]) && !IsWhitespace(name[0]) && name[0] != '/' && name[0] != '$'
    ensures Requested(before + (slashes + (dollars + name)) + behind) == name
  {
    NoMarkIsBlank();
    RequestedBy(before, slashes, dollars, name, behind, IsWhitespace, c => c == '/', c => c == '$');
  }

  // ----- The order within a root -----

  lemma MarksTrimmed(before: string, slashes: string, dollars: string, behind: string,
                     ws: char -> bool, slash: char -> bool, dollar: char -> bool)
    requires (forall c | c in before :: ws(c)) && (forall c | c in behind :: ws(c)) && Only(slashes, '/') && Only(dollars, '$')
    requires (forall c :: slash(c) <==> c == '/') && (forall c :: dollar(c) <==> c == '$') && !ws('/') && !ws('$')
    ensures TrimStartBy(TrimStartBy(TrimBy(before + (slashes + dollars) + behind, ws), slash), dollar) == ""
  {
    var core := slashes + dollars;
    assert slashes != "" ==> slashes[0] in slashes && slashes[|slashes| - 1] in slashes;
    assert dollars != "" ==> dollars[0] in dollars && dollars[|dollars| - 1] in dollars;
    TrimmedIs(before + core + behind, before, core, behind, ws);
    TrimStartOf(slashes, dollars, slash);
    TrimStartOf(dollars, "", dollar);
    assert dollars + "" == dollars;
  }

  /** Where nothing is left of what was typed, it is refused, whatever roots there are. */
  lemma NoNameIsRefused(roots: seq<SkillRoot>, before: string, slashes: string, dollars: string, behind: string)
    requires (forall c | c in before :: IsWhitespace(c)) && (forall c | c in behind :: IsWhitespace(c))
    requires Only(slashes, '/') && Only(dollars, '$')
    ensures ResolveSkill(roots, before + (slashes + dollars) + behind) == Err(InvalidInput)
  {
    NoMarkIsBlank();
    MarksTrimmed(before, slashes, dollars, behind, IsWhitespace, c => c == '/', c => c == '$');
  }

  /** The first difference between two strings. */
  predicate LessAt(a: string, b: string, k: nat) {
    k < |a| && k < |b| && a[..k] == b[..k] && a[k] < b[k]
  }

  ghost predicate Less(a: string, b: string) {
    exists k: nat :: LessAt(a, b, k)
  }

  lemma {:induction false} NameLeIff(a: string, b: string)
    ensures SlashCommands.NameLe(a, b) <==> a <= b || Less(a, b)
  {
    if a != "" && b != "" {
      NameLeIff(a[1..], b[1..]);
      if a[0] == b[0] {
        PrefixBehind(a, b);
        LessIsLater(a, b);
      } else {
        LessAtOnce(a, b);
      }
    }
  }

  lemma LessIsLater(a: string, b: string)
    requires a != "" && b != "" && a[0] == b[0]
    ensures Less(a, b) <==> Less(a[1..], b[1..])
  {
    if k: nat :| LessAt(a, b, k) {
      LessBehind(a, b, k - 1);
    }
    var x, y := a[1..], b[1..];
    if k: nat :| LessAt(x, y, k) {
      LessBehind(a, b, k);
    }
  }

  lemma LessAtOnce(a: string, b: string)
    requires a != "" && b != "" && a[0] != b[0]
    ensures !(a <= b) && (Less(a, b) <==> a[0] < b[0])
  {
    assert LessAt(a, b, 0) <==> a[0] < b[0];
    forall k: nat | 0 < k < |a| && k < |b| ensures a[..k] != b[..k] {
      HeadsDiffer(a, b, k);
    }
  }

  lemma HeadsDiffer(a: string, b: string, k: nat)
    requires 0 < k <= |a| && k <= |b| && a[0] != b[0]
    ensures a[..k] != b[..k]
  {
    assert a[..k][0] == a[0] && b[..k][0] == b[0];
  }

  lemma LessBehind(a: string, b: string, k: nat)
    requires a != "" && b != "" && a[0] == b[0]
    ensures LessAt(a, b, k + 1) <==> LessAt(a[1..], b[1..], k)
  {
    if k + 1 < |a| && k + 1 < |b| {
      assert a[..k + 1] == [a[0]] + a[1..][..k] && b[..k + 1] == [b[0]] + b[1..][..k];
    }
  }

  lemma PrefixBehind(a: string, b: string)
    requires a != "" && b != "" && a[0] == b[0]
    ensures a <= b <==> a[1..] <= b[1..]
  {
    assert a == [a[0]] + a[1..] && b == [b[0]] + b[1..];
  }

  lemma NamesOrdered()
    ensures TotalPreorder(SummaryLe)
  {
    forall x: SkillSummary, y: SkillSummary ensures SummaryLe(x, y) || SummaryLe(y, x) {
      SlashCommands.NameLeTotal(x.name, y.name);
    }
    forall x: SkillSummary, y: SkillSummary, z: SkillSummary | SummaryLe(x, y) && SummaryLe(y, z) ensures SummaryLe(x, z) {
      SlashCommands.NameLeTransitive(x.name, y.name, z.name);
    }
  }

  /** The skills of one root are listed by name. */
  lemma RootIsSorted(root: SkillRoot, i: nat, j: nat)
    requires SortedRoot(root).Some? && i < j < |SortedRoot(root).value|
    ensures var (a, b) := (SortedRoot(root).value[i].name, SortedRoot(root).value[j].name);
            a <= b || Less(a, b)
  {
    NamesOrdered();
    SortSorts(RootSkills(root, root.listing.value).value, SummaryLe);
    NameLeIff(SortedRoot(root).value[i].name, SortedRoot(root).value[j].name);
  }
}
