/** Listing skills with their shadowing, and resolving one by name: two lookups over the
    same directories. */
module Skills {
  import opened Sequences
  import opened Sorting
  import opened Text
  import opened Wrappers
  import SlashCommands

  datatype Origin = SkillsDir | LegacyCommandsDir

  /** A file or directory of a root. `contents` is missing if its markdown cannot be read. */
  datatype DirEntry = DirEntry(
    fileName: string, isDir: bool, hasSkillMd: bool, isMarkdown: bool, stem: string,
    contents: Option<Frontmatter>)

  datatype Frontmatter = Frontmatter(name: Option<string>, description: Option<string>)

  /** A skill root; `listing` is missing if the directory cannot be read. */
  datatype SkillRoot = SkillRoot(path: string, origin: Origin, source: string, listing: Option<seq<DirEntry>>)

  datatype Path = EntryPath(root: string, file: string) | SkillMdPath(root: string, file: string)

  datatype SkillSummary = SkillSummary(
    name: string, description: Option<string>, source: string, shadowedBy: Option<string>, origin: Origin, path: Path)

  /** An entry that is a skill: a directory with a SKILL.md, or in a legacy root also a
      markdown file. */
  predicate IsSkill(origin: Origin, e: DirEntry) {
    if e.isDir then e.hasSkillMd else origin == LegacyCommandsDir && e.isMarkdown
  }

  function FallbackName(origin: Origin, e: DirEntry): string {
    match origin
    case SkillsDir => e.fileName
    case LegacyCommandsDir => if e.isDir then "SKILL" else e.stem
  }

  function SkillName(origin: Origin, e: DirEntry): string
    requires e.contents.Some?
  {
    UnwrapOr(e.contents.value.name, FallbackName(origin, e))
  }

  /** Where the markdown of a skill is. */
  function MarkdownPath(root: SkillRoot, e: DirEntry): Path {
    if e.isDir then SkillMdPath(root.path, e.fileName) else EntryPath(root.path, e.fileName)
  }

  /** The path that the listing shows: the directory in a skills root. */
  function ListedPath(root: SkillRoot, e: DirEntry): Path {
    if root.origin == SkillsDir then EntryPath(root.path, e.fileName) else MarkdownPath(root, e)
  }

  function Summary(root: SkillRoot, e: DirEntry): SkillSummary
    requires e.contents.Some?
  {
    SkillSummary(SkillName(root.origin, e), e.contents.value.description, root.source, None, root.origin, ListedPath(root, e))
  }

  /** The skills of a root in listing order; none if one of them cannot be read. */
  function RootSkills(root: SkillRoot, es: seq<DirEntry>): Option<seq<SkillSummary>> {
    if es == [] then Some([])
    else if !IsSkill(root.origin, es[0]) then RootSkills(root, es[1..])
    else if es[0].contents.None? then None
    else
      match RootSkills(root, es[1..])
      case None => None
      case Some(rest) => Some([Summary(root, es[0])] + rest)
  }

  predicate SummaryLe(a: SkillSummary, b: SkillSummary) {
    SlashCommands.NameLe(a.name, b.name)
  }

  function SortedRoot(root: SkillRoot): Option<seq<SkillSummary>> {
    match root.listing
    case None => None
    case Some(es) =>
      match RootSkills(root, es)
      case None => None
      case Some(ss) => Some(Sort(ss, SummaryLe))
  }

  /** Each skill is marked with the source that already claimed its name, if one did. */
  function Mark(ss: seq<SkillSummary>, active: map<string, string>): seq<SkillSummary> {
    if ss == [] then []
    else
      var key := Lower(ss[0].name);
      if key in active then [ss[0].(shadowedBy := Some(active[key]))] + Mark(ss[1..], active)
      else [ss[0]] + Mark(ss[1..], active[key := ss[0].source])
  }

  /** All skills, root by root. */
  function AllSkills(roots: seq<SkillRoot>): Option<seq<SkillSummary>> {
    if roots == [] then Some([])
    else
      match SortedRoot(roots[0])
      case None => None
      case Some(ss) =>
        match AllSkills(roots[1..])
        case None => None
        case Some(rest) => Some(ss + rest)
  }

  function LoadSkills(roots: seq<SkillRoot>): Option<seq<SkillSummary>> {
    match AllSkills(roots)
    case None => None
    case Some(ss) => Some(Mark(ss, map[]))
  }

  // ----- Resolving a name -----

  datatype Named = Named(name: string, path: Path)

  datatype ResolveError = InvalidInput | Io | NotFound

  function Requested(skill: string): string {
    TrimStartBy(TrimStartBy(Trim(skill), c => c == '/'), c => c == '$')
  }

  function RootNames(root: SkillRoot, es: seq<DirEntry>): Option<seq<Named>> {
    if es == [] then Some([])
    else if !IsSkill(root.origin, es[0]) then RootNames(root, es[1..])
    else if es[0].contents.None? then None
    else
      match RootNames(root, es[1..])
      case None => None
      case Some(rest) => Some([Named(SkillName(root.origin, es[0]), MarkdownPath(root, es[0]))] + rest)
  }

  predicate NamedLe(a: Named, b: Named) {
    SlashCommands.NameLe(a.name, b.name)
  }

  predicate SameName(a: string, b: string) {
    Lower(a) == Lower(b)
  }

  function FindNamed(ns: seq<Named>, requested: string): Option<Path> {
    if ns == [] then None
    else if SameName(ns[0].name, requested) then Some(ns[0].path)
    else FindNamed(ns[1..], requested)
  }

  function ResolveIn(roots: seq<SkillRoot>, requested: string): Result<Path, ResolveError> {
    if roots == [] then Err(NotFound)
    else if roots[0].listing.None? then Err(Io)
    else
      match RootNames(roots[0], roots[0].listing.value)
      case None => Err(Io)
      case Some(ns) =>
        match FindNamed(Sort(ns, NamedLe), requested)
        case Some(p) => Ok(p)
        case None => ResolveIn(roots[1..], requested)
  }

  function ResolveSkill(roots: seq<SkillRoot>, skill: string): Result<Path, ResolveError> {
    var requested := Requested(skill);
    if requested == "" then Err(InvalidInput) else ResolveIn(roots, requested)
  }

  // ----- The loops -----

  method RootSkillsLoop(root: SkillRoot, es: seq<DirEntry>) returns (r: Option<seq<SkillSummary>>)
    ensures r == RootSkills(root, es)
  {
    var rootSkills: seq<SkillSummary> := [];
    PrependNothing(RootSkills(root, es));
    assert es[0..] == es;
    for i := 0 to |es|
      invariant RootSkills(root, es) == PrependTo(rootSkills, RootSkills(root, es[i..]))
    {
      var e := es[i];
      assert es[i..][1..] == es[i + 1..];
      if !IsSkill(root.origin, e) {
        continue;
      }
      if e.contents.None? {
        return None;
      }
      PrependOnce(rootSkills, Summary(root, e), RootSkills(root, es[i + 1..]));
      rootSkills := rootSkills + [Summary(root, e)];
    }
    assert rootSkills + [] == rootSkills;
    return Some(rootSkills);
  }

  function PrependTo<T>(xs: seq<T>, r: Option<seq<T>>): Option<seq<T>> {
    match r
    case None => None
    case Some(ys) => Some(xs + ys)
  }

  lemma PrependNothing<T>(r: Option<seq<T>>)
    ensures PrependTo([], r) == r
  {
    if r.Some? {
      assert [] + r.value == r.value;
    }
  }

  lemma PrependOnce<T>(xs: seq<T>, x: T, r: Option<seq<T>>)
    ensures PrependTo(xs, PrependTo([x], r)) == PrependTo(xs + [x], r)
  {
    match r
    case None =>
    case Some(ys) => ConcatAssociative(xs, [x], ys);
  }

  method LoadSkillsFromRoots(roots: seq<SkillRoot>) returns (r: Option<seq<SkillSummary>>)
    ensures r == LoadSkills(roots)
  {
    var skills: seq<SkillSummary> := [];
    var activeSources: map<string, string> := map[];
    NothingMarked(AllSkills(roots));
    assert roots[0..] == roots;
    for i := 0 to |roots|
      invariant LoadSkills(roots) == MarkedAfter(skills, activeSources, AllSkills(roots[i..]))
    {
      assert roots[i..][1..] == roots[i + 1..];
      if roots[i].listing.None? {
        return None;
      }
      var rootSkills := RootSkillsLoop(roots[i], roots[i].listing.value);
      if rootSkills.None? {
        return None;
      }
      var sorted := Sort(rootSkills.value, SummaryLe);
      MarkedOnce(skills, activeSources, sorted, AllSkills(roots[i + 1..]));
      var marked;
      marked, activeSources := MarkLoop(sorted, activeSources);
      skills := skills + marked;
    }
    assert skills + [] == skills;
    return Some(skills);
  }

  /** The sources that have claimed a name once these skills are listed too. */
  function Claimed(ss: seq<SkillSummary>, active: map<string, string>): map<string, string> {
    if ss == [] then active
    else
      var key := Lower(ss[0].name);
      Claimed(ss[1..], if key in active then active else active[key := ss[0].source])
  }

  /** Skills already listed, and those still to be marked. */
  function MarkedAfter(skills: seq<SkillSummary>, active: map<string, string>, rest: Option<seq<SkillSummary>>): Option<seq<SkillSummary>> {
    match rest
    case None => None
    case Some(ss) => Some(skills + Mark(ss, active))
  }

  lemma NothingMarked(rest: Option<seq<SkillSummary>>)
    ensures MarkedAfter([], map[], rest) == if rest.None? then None else Some(Mark(rest.value, map[]))
  {
    if rest.Some? {
      assert [] + Mark(rest.value, map[]) == Mark(rest.value, map[]);
    }
  }

  lemma {:induction false} MarkConcat(a: seq<SkillSummary>, b: seq<SkillSummary>, active: map<string, string>)
    ensures Mark(a + b, active) == Mark(a, active) + Mark(b, Claimed(a, active))
    decreases |a|
  {
    if a == [] {
      assert a + b == b;
    } else {
      var key := Lower(a[0].name);
      SliceOfConcat(a, b, 1);
      assert (a + b)[0] == a[0];
      MarkConcat(a[1..], b, if key in active then active else active[key := a[0].source]);
    }
  }

  lemma MarkedOnce(skills: seq<SkillSummary>, active: map<string, string>, sorted: seq<SkillSummary>, rest: Option<seq<SkillSummary>>)
    ensures MarkedAfter(skills, active, PrependTo(sorted, rest)) ==
            MarkedAfter(skills + Mark(sorted, active), Claimed(sorted, active), rest)
  {
    match rest
    case None =>
    case Some(ss) =>
      MarkConcat(sorted, ss, active);
      ConcatAssociative(skills, Mark(sorted, active), Mark(ss, Claimed(sorted, active)));
  }

  method MarkLoop(ss: seq<SkillSummary>, active: map<string, string>) returns (skills: seq<SkillSummary>, activeSources: map<string, string>)
    ensures skills == Mark(ss, active) && activeSources == Claimed(ss, active)
  {
    skills := [];
    activeSources := active;
    for i := 0 to |ss|
      invariant skills + Mark(ss[i..], activeSources) == Mark(ss, active)
      invariant Claimed(ss[i..], activeSources) == Claimed(ss, active)
    {
      var rest := ss[i..];
      assert rest[1..] == ss[i + 1..];
      var skill := ss[i];
      var key := Lower(skill.name);
      if key in activeSources {
        skill := skill.(shadowedBy := Some(activeSources[key]));
        ConcatAssociative(skills, [skill], Mark(rest[1..], activeSources));
      } else {
        ConcatAssociative(skills, [skill], Mark(rest[1..], activeSources[key := skill.source]));
        activeSources := activeSources[key := skill.source];
      }
      skills := skills + [skill];
    }
  }

  method RootNamesLoop(root: SkillRoot, es: seq<DirEntry>) returns (r: Option<seq<Named>>)
    ensures r == RootNames(root, es)
  {
    var entries: seq<Named> := [];
    PrependNothing(RootNames(root, es));
    assert es[0..] == es;
    for i := 0 to |es|
      invariant RootNames(root, es) == PrependTo(entries, RootNames(root, es[i..]))
    {
      var e := es[i];
      assert es[i..][1..] == es[i + 1..];
      if !IsSkill(root.origin, e) {
        continue;
      }
      if e.contents.None? {
        return None;
      }
      var entry := Named(SkillName(root.origin, e), MarkdownPath(root, e));
      PrependOnce(entries, entry, RootNames(root, es[i + 1..]));
      entries := entries + [entry];
    }
    assert entries + [] == entries;
    return Some(entries);
  }

  method ResolveSkillPath(roots: seq<SkillRoot>, skill: string) returns (r: Result<Path, ResolveError>)
    ensures r == ResolveSkill(roots, skill)
  {
    var requested := Requested(skill);
    if requested == "" {
      return Err(InvalidInput);
    }
    assert roots[0..] == roots;
    for i := 0 to |roots|
      invariant ResolveIn(roots, requested) == ResolveIn(roots[i..], requested)
    {
      assert roots[i..][1..] == roots[i + 1..];
      if roots[i].listing.None? {
        return Err(Io);
      }
      var entries := RootNamesLoop(roots[i], roots[i].listing.value);
      if entries.None? {
        return Err(Io);
      }
      var found := FindNamed(Sort(entries.value, NamedLe), requested);
      if found.Some? {
        return Ok(found.value);
      }
    }
    return Err(NotFound);
  }

  // ----- The two lookups agree -----

  /** The file that a listed skill stands for. */
  function FileOf(s: SkillSummary): Path {
    if s.origin == SkillsDir then SkillMdPath(s.path.root, s.path.file) else s.path
  }

  function AsNamed(s: SkillSummary): Named {
    Named(s.name, FileOf(s))
  }

  lemma {:induction false} RootsAgree(root: SkillRoot, es: seq<DirEntry>)
    ensures RootNames(root, es).None? <==> RootSkills(root, es).None?
    ensures RootNames(root, es).Some? ==> RootNames(root, es).value == Map(AsNamed, RootSkills(root, es).value)
  {
    if es != [] {
      RootsAgree(root, es[1..]);
      if IsSkill(root.origin, es[0]) && es[0].contents.Some? && RootSkills(root, es[1..]).Some? {
        assert AsNamed(Summary(root, es[0])) == Named(SkillName(root.origin, es[0]), MarkdownPath(root, es[0]));
      }
    }
  }

  /** The first skill of a name, ignoring case, in a list. */
  function First(ss: seq<SkillSummary>, requested: string): Option<SkillSummary> {
    if ss == [] then None
    else if SameName(ss[0].name, requested) then Some(ss[0])
    else First(ss[1..], requested)
  }

  lemma {:induction false} FindIsFirst(ss: seq<SkillSummary>, requested: string)
    ensures FindNamed(Map(AsNamed, ss), requested) ==
            if First(ss, requested).Some? then Some(FileOf(First(ss, requested).value)) else None
  {
    if ss != [] {
      FindIsFirst(ss[1..], requested);
      assert Map(AsNamed, ss)[1..] == Map(AsNamed, ss[1..]);
    }
  }

  lemma {:induction false} FirstConcat(a: seq<SkillSummary>, b: seq<SkillSummary>, requested: string)
    ensures First(a + b, requested) == if First(a, requested).Some? then First(a, requested) else First(b, requested)
  {
    if a == [] {
      assert a + b == b;
    } else {
      assert (a + b)[1..] == a[1..] + b;
      FirstConcat(a[1..], b, requested);
    }
  }

  lemma {:induction false} ResolveIsFirst(roots: seq<SkillRoot>, requested: string)
    requires AllSkills(roots).Some?
    ensures var first := First(AllSkills(roots).value, requested);
            ResolveIn(roots, requested) == if first.Some? then Ok(FileOf(first.value)) else Err(NotFound)
  {
    if roots != [] {
      ResolveIsFirst(roots[1..], requested);
      FirstOfRoot(roots[0], requested);
      FirstConcat(SortedRoot(roots[0]).value, AllSkills(roots[1..]).value, requested);
    }
  }

  /** Roots behind the one that has the skill do not matter, even if they cannot be read. */
  lemma {:induction false} LaterRootsUnread(roots: seq<SkillRoot>, more: seq<SkillRoot>, requested: string)
    requires AllSkills(roots).Some?
    ensures ResolveIn(roots + more, requested) ==
            if First(AllSkills(roots).value, requested).Some? then ResolveIn(roots, requested) else ResolveIn(more, requested)
  {
    if roots == [] {
      assert roots + more == more;
    } else {
      var rest := roots[1..];
      assert (roots + more)[1..] == rest + more;
      LaterRootsUnread(rest, more, requested);
      FirstOfRoot(roots[0], requested);
      FirstConcat(SortedRoot(roots[0]).value, AllSkills(rest).value, requested);
    }
  }

  lemma FirstOfRoot(root: SkillRoot, requested: string)
    requires SortedRoot(root).Some?
    ensures RootNames(root, root.listing.value).Some?
    ensures var first := First(SortedRoot(root).value, requested);
            FindNamed(Sort(RootNames(root, root.listing.value).value, NamedLe), requested) ==
            if first.Some? then Some(FileOf(first.value)) else None
  {
    var es := root.listing.value;
    var ss := RootSkills(root, es).value;
    RootsAgree(root, es);
    SortMap(AsNamed, ss, SummaryLe, NamedLe);
    FindIsFirst(Sort(ss, SummaryLe), requested);
  }

  /** Listed and not shadowed, under this name. */
  predicate ActiveAt(ss: seq<SkillSummary>, i: nat, requested: string) {
    i < |ss| && ss[i].shadowedBy == None && SameName(ss[i].name, requested)
  }

  predicate Unmarked(ss: seq<SkillSummary>) {
    forall i | 0 <= i < |ss| :: ss[i].shadowedBy == None
  }

  lemma {:induction false} MarkedTaken(ss: seq<SkillSummary>, active: map<string, string>, requested: string, i: nat)
    requires Lower(requested) in active
    ensures !ActiveAt(Mark(ss, active), i, requested)
    decreases |ss|
  {
    if ss != [] && i > 0 {
      var key := Lower(ss[0].name);
      MarkedTaken(ss[1..], if key in active then active else active[key := ss[0].source], requested, i - 1);
    }
  }

  /** The unshadowed skill of a name is the first one of that name, and the only one. */
  lemma {:induction false} MarkedFirst(ss: seq<SkillSummary>, active: map<string, string>, requested: string, i: nat)
    requires Unmarked(ss) && Lower(requested) !in active
    ensures ActiveAt(Mark(ss, active), i, requested) ==>
              First(ss, requested) == Some(Mark(ss, active)[i])
    ensures First(ss, requested).Some? ==> exists j: nat :: ActiveAt(Mark(ss, active), j, requested)
    ensures forall j: nat :: ActiveAt(Mark(ss, active), i, requested) && ActiveAt(Mark(ss, active), j, requested) ==> i == j
    decreases |ss|
  {
    if ss != [] {
      var key := Lower(ss[0].name);
      var marked := Mark(ss, active);
      var after := if key in active then active else active[key := ss[0].source];
      var rest := Mark(ss[1..], after);
      assert marked == [marked[0]] + rest;
      if key == Lower(requested) {
        assert ActiveAt(marked, 0, requested);
        forall j: nat | j > 0 ensures !ActiveAt(marked, j, requested) {
          MarkedTaken(ss[1..], after, requested, j - 1);
        }
      } else {
        forall j: nat | j > 0 ensures ActiveAt(marked, j, requested) <==> ActiveAt(rest, j - 1, requested) {
        }
        MarkedFirst(ss[1..], after, requested, if i > 0 then i - 1 else 0);
        if First(ss, requested).Some? {
          var j: nat :| ActiveAt(rest, j, requested);
          assert ActiveAt(marked, j + 1, requested);
        }
      }
    }
  }

  /** Who shadows a skill of this name: whoever claimed it before, else the first of `before`. */
  function ShadowOf(active: map<string, string>, before: seq<SkillSummary>, name: string): Option<string> {
    if Lower(name) in active then Some(active[Lower(name)])
    else if First(before, name).Some? then Some(First(before, name).value.source)
    else None
  }

  /** Every skill is listed as it was found, shadowed by the first one before it that has
      its name, ignoring case, and by none if there is no such skill. */
  lemma {:induction false} MarkAt(ss: seq<SkillSummary>, active: map<string, string>, i: nat)
    requires Unmarked(ss) && i < |ss|
    ensures |Mark(ss, active)| == |ss|
    ensures Mark(ss, active)[i] == ss[i].(shadowedBy := ShadowOf(active, ss[..i], ss[i].name))
    decreases |ss|
  {
    var key := Lower(ss[0].name);
    var after := if key in active then active else active[key := ss[0].source];
    if |ss| > 1 {
      MarkAt(ss[1..], after, if i > 0 then i - 1 else 0);
    }
    if i > 0 {
      assert ss[..i][0] == ss[0] && ss[..i][1..] == ss[1..][..i - 1];
    }
  }

  lemma {:induction false} RootSkillsUnmarked(root: SkillRoot, es: seq<DirEntry>)
    ensures RootSkills(root, es).Some? ==> Unmarked(RootSkills(root, es).value)
  {
    if es != [] {
      RootSkillsUnmarked(root, es[1..]);
    }
  }

  lemma {:induction false} AllSkillsUnmarked(roots: seq<SkillRoot>)
    ensures AllSkills(roots).Some? ==> Unmarked(AllSkills(roots).value)
  {
    if roots != [] && AllSkills(roots).Some? {
      AllSkillsUnmarked(roots[1..]);
      var ss := RootSkills(roots[0], roots[0].listing.value).value;
      RootSkillsUnmarked(roots[0], roots[0].listing.value);
      var sorted := Sort(ss, SummaryLe);
      forall i | 0 <= i < |sorted| ensures sorted[i].shadowedBy == None {
        SortMembers(ss, SummaryLe, sorted[i]);
        assert sorted[i] in sorted;
      }
    }
  }

  /** Where the roots can be listed, resolving what the user typed finds exactly the one
      unshadowed skill of that name, ignoring case, and fails if and only if there is none. */
  lemma LookupsAgree(roots: seq<SkillRoot>, skill: string, i: nat, j: nat)
    requires LoadSkills(roots).Some? && Requested(skill) != ""
    ensures var ss := LoadSkills(roots).value;
            && (ActiveAt(ss, i, Requested(skill)) ==> ResolveSkill(roots, skill) == Ok(FileOf(ss[i])))
            && (ActiveAt(ss, i, Requested(skill)) && ActiveAt(ss, j, Requested(skill)) ==> i == j)
            && (ResolveSkill(roots, skill).Err? <==> forall k: nat :: !ActiveAt(ss, k, Requested(skill)))
            && (ResolveSkill(roots, skill).Err? ==> ResolveSkill(roots, skill) == Err(NotFound))
  {
    var requested := Requested(skill);
    var all := AllSkills(roots).value;
    AllSkillsUnmarked(roots);
    ResolveIsFirst(roots, requested);
    MarkedFirst(all, map[], requested, i);
    if ResolveSkill(roots, skill).Err? {
      forall k: nat ensures !ActiveAt(Mark(all, map[]), k, requested) {
        MarkedFirst(all, map[], requested, k);
      }
    }
  }
}
