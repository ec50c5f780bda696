/** What the index holds, run by run: the specification of `run_ingest`. */
module IngestIndex {
  import opened RagDatabase
  import opened Wrappers
  import ChunkText

  const CHUNK_CHARS := 900
  const CHUNK_OVERLAP := 120

  datatype Stat = Stat(size: nat, mtime: int)

  /** A file found by the walk; `stat` and `content` are missing if they cannot be read. */
  datatype WalkedFile = WalkedFile(key: string, stat: Option<Stat>, content: Option<string>) {
    predicate Readable() {
      stat.Some? && content.Some?
    }
  }

  /** The index as queries see it: indexed files, and the chunk texts of each path. */
  datatype Index = Index(files: map<string, FileRow>, texts: Texts)

  const EMPTY := Index(map[], map[])

  /** A content hash. */
  type Hash = string -> string

  function ChunksOf(content: string): seq<string> {
    ChunkText.Chunks(content, CHUNK_CHARS, CHUNK_OVERLAP)
  }

  function Put(m: Texts, path: string, texts: seq<string>): Texts {
    if texts == [] then m - {path} else m[path := texts]
  }

  function Delete(ix: Index, path: string): Index {
    Index(ix.files - {path}, ix.texts - {path})
  }

  function RowOf(f: WalkedFile, hash: Hash): FileRow
    requires f.Readable()
  {
    FileRow(hash(f.content.value), f.stat.value.size, f.stat.value.mtime)
  }

  predicate Unchanged(ix: Index, f: WalkedFile, hash: Hash)
    requires f.Readable()
  {
    f.key in ix.files && ix.files[f.key] == RowOf(f, hash)
  }

  /** A file's chunks and row replaced; a file without chunks is not kept. */
  function Reindexed(ix: Index, path: string, pieces: seq<string>, row: FileRow): Index {
    if pieces == [] then Delete(ix, path) else Index(ix.files[path := row], Put(ix.texts, path, pieces))
  }

  /** A file's row and chunks gone, and the first new chunks stored. */
  function PartlyIndexed(ix: Index, path: string, pieces: seq<string>): Index {
    Index(ix.files - {path}, Put(ix.texts, path, pieces))
  }

  /** The index once a file has been handled. */
  function AfterFile(ix: Index, f: WalkedFile, hash: Hash): Index {
    if !f.Readable() || Unchanged(ix, f, hash) then ix
    else Reindexed(ix, f.key, ChunksOf(f.content.value), RowOf(f, hash))
  }

  function AfterFiles(ix: Index, fs: seq<WalkedFile>, hash: Hash): Index {
    if fs == [] then ix else AfterFile(AfterFiles(ix, fs[..|fs| - 1], hash), fs[|fs| - 1], hash)
  }

  /** The index if the run stops at a file after storing its first `k` chunks. */
  function StoppedAt(ix: Index, f: WalkedFile, k: nat): Index {
    if !f.Readable() || k > |ChunksOf(f.content.value)| then ix
    else PartlyIndexed(ix, f.key, ChunksOf(f.content.value)[..k])
  }

  function Keys(fs: seq<WalkedFile>): set<string> {
    set f | f in fs :: f.key
  }

  /** Rows of files that were not walked go, with their chunks. */
  function Prune(ix: Index, keys: set<string>): Index {
    Index(ix.files - (ix.files.Keys - keys), ix.texts - (ix.files.Keys - keys))
  }

  function Completed(ix: Index, fs: seq<WalkedFile>, hash: Hash): Index {
    Prune(AfterFiles(ix, fs, hash), Keys(fs))
  }

  // ----- What a run has to do -----

  /** The row of the file has the hash of its content, its size and its time. */
  predicate RowStands(ix: Index, f: WalkedFile, hash: Hash) {
    && f.stat.Some? && f.content.Some? && f.key in ix.files
    && ix.files[f.key] == FileRow(hash(f.content.value), f.stat.value.size, f.stat.value.mtime)
  }

  /** Nothing is to be done for the file: it cannot be read, its row stands, or it has no
      chunks and none are stored. */
  predicate Quiet(ix: Index, f: WalkedFile, hash: Hash) {
    || f.stat.None? || f.content.None? || RowStands(ix, f, hash)
    || (ChunksOf(f.content.value) == [] && f.key !in ix.files && f.key !in ix.texts)
  }

  predicate AllQuiet(ix: Index, fs: seq<WalkedFile>, hash: Hash) {
    forall f | f in fs :: Quiet(ix, f, hash)
  }

  /** How many chunks of a file are to be embedded. */
  function Fresh(ix: Index, f: WalkedFile, hash: Hash): nat {
    if f.stat.None? || f.content.None? || RowStands(ix, f, hash) then 0 else |ChunksOf(f.content.value)|
  }

  /** The chunks embedded by a run over a walk, each file met as the ones before leave it. */
  function Work(ix: Index, fs: seq<WalkedFile>, hash: Hash): nat {
    if fs == [] then 0
    else Work(ix, fs[..|fs| - 1], hash) + Fresh(AfterFiles(ix, fs[..|fs| - 1], hash), fs[|fs| - 1], hash)
  }

  lemma QuietStays(ix: Index, f: WalkedFile, hash: Hash)
    requires Quiet(ix, f, hash)
    ensures AfterFile(ix, f, hash) == ix && Fresh(ix, f, hash) == 0
  {
    if f.key !in ix.files && f.key !in ix.texts {
      assert ix.files - {f.key} == ix.files && ix.texts - {f.key} == ix.texts;
    }
  }

  /** Over quiet files a run changes nothing and embeds nothing. */
  lemma {:induction false} QuietWalk(ix: Index, fs: seq<WalkedFile>, hash: Hash)
    requires AllQuiet(ix, fs, hash)
    ensures AfterFiles(ix, fs, hash) == ix && Work(ix, fs, hash) == 0
  {
    if fs != [] {
      assert fs[|fs| - 1] in fs;
      QuietWalk(ix, fs[..|fs| - 1], hash);
      QuietStays(ix, fs[|fs| - 1], hash);
    }
  }

  // ----- A file row vouches for its chunks -----

  /** The chunks of the path are those of some content with the row's hash. */
  ghost predicate Vouched(ix: Index, path: string, hash: Hash)
    requires path in ix.files
  {
    exists c :: hash(c) == ix.files[path].hash && ChunksOf(c) != [] && TextsAt(ix.texts, path) == ChunksOf(c)
  }

  ghost predicate Faithful(ix: Index, hash: Hash) {
    forall path | path in ix.files :: Vouched(ix, path, hash)
  }

  lemma VouchedSame(ix: Index, jx: Index, path: string, hash: Hash)
    requires path in ix.files && Vouched(ix, path, hash)
    requires path in jx.files && jx.files[path] == ix.files[path] && TextsAt(jx.texts, path) == TextsAt(ix.texts, path)
    ensures Vouched(jx, path, hash)
  {
  }

  lemma AfterFileFaithful(ix: Index, f: WalkedFile, hash: Hash)
    requires Faithful(ix, hash)
    ensures Faithful(AfterFile(ix, f, hash), hash)
  {
    var jx := AfterFile(ix, f, hash);
    forall path | path in jx.files ensures Vouched(jx, path, hash) {
      if jx != ix && path == f.key {
        assert hash(f.content.value) == jx.files[path].hash;
      } else {
        VouchedSame(ix, jx, path, hash);
      }
    }
  }

  lemma {:induction false} AfterFilesFaithful(ix: Index, fs: seq<WalkedFile>, hash: Hash)
    requires Faithful(ix, hash)
    ensures Faithful(AfterFiles(ix, fs, hash), hash)
  {
    if fs != [] {
      AfterFilesFaithful(ix, fs[..|fs| - 1], hash);
      AfterFileFaithful(AfterFiles(ix, fs[..|fs| - 1], hash), fs[|fs| - 1], hash);
    }
  }

  lemma StoppedFaithful(ix: Index, f: WalkedFile, k: nat, hash: Hash)
    requires Faithful(ix, hash)
    ensures Faithful(StoppedAt(ix, f, k), hash)
  {
    var jx := StoppedAt(ix, f, k);
    forall path | path in jx.files ensures Vouched(jx, path, hash) {
      VouchedSame(ix, jx, path, hash);
    }
  }

  lemma PruneFaithful(ix: Index, keys: set<string>, hash: Hash)
    requires Faithful(ix, hash)
    ensures Faithful(Prune(ix, keys), hash)
  {
    var jx := Prune(ix, keys);
    forall path | path in jx.files ensures Vouched(jx, path, hash) {
      VouchedSame(ix, jx, path, hash);
    }
  }

  // ----- Whole histories of runs -----

  /** A run over walked files: it completes, or it stops at one of them. */
  datatype Run =
    | CompleteRun(files: seq<WalkedFile>)
    | StoppedRun(files: seq<WalkedFile>, n: nat, k: nat)
    | RefusedRun(files: seq<WalkedFile>, n: nat)

  predicate WellFormed(r: Run) {
    r.CompleteRun? || r.n < |r.files|
  }

  /** A run that stops does so while embedding chunks of a file, its old ones deleted, or is
      refused before it touches the file. */
  function AfterRun(ix: Index, r: Run, hash: Hash): Index
    requires WellFormed(r)
  {
    match r
    case CompleteRun(fs) => Completed(ix, fs, hash)
    case StoppedRun(fs, n, k) => StoppedAt(AfterFiles(ix, fs[..n], hash), fs[n], k)
    case RefusedRun(fs, n) => AfterFiles(ix, fs[..n], hash)
  }

  function AfterRuns(ix: Index, rs: seq<Run>, hash: Hash): Index
    requires forall r | r in rs :: WellFormed(r)
  {
    if rs == [] then ix else AfterRun(AfterRuns(ix, rs[..|rs| - 1], hash), rs[|rs| - 1], hash)
  }

  /** In every state that runs reach, completed or not, a file row means that the path's
      chunks are exactly the chunks of content with that hash. */
  lemma {:induction false} EveryHistoryFaithful(rs: seq<Run>, hash: Hash)
    requires forall r | r in rs :: WellFormed(r)
    ensures Faithful(AfterRuns(EMPTY, rs, hash), hash)
  {
    if rs != [] {
      EveryHistoryFaithful(rs[..|rs| - 1], hash);
      var ix, r := AfterRuns(EMPTY, rs[..|rs| - 1], hash), rs[|rs| - 1];
      assert WellFormed(r);
      match r
      case CompleteRun(fs) =>
        AfterFilesFaithful(ix, fs, hash);
        PruneFaithful(AfterFiles(ix, fs, hash), Keys(fs), hash);
      case StoppedRun(fs, n, k) =>
        AfterFilesFaithful(ix, fs[..n], hash);
        StoppedFaithful(AfterFiles(ix, fs[..n], hash), fs[n], k, hash);
      case RefusedRun(fs, n) =>
        AfterFilesFaithful(ix, fs[..n], hash);
    }
  }

  // ----- Chunks without a row -----

  function Orphans(ix: Index): set<string> {
    ix.texts.Keys - ix.files.Keys
  }

  lemma {:induction false} AfterFilesOrphans(ix: Index, fs: seq<WalkedFile>, hash: Hash)
    ensures Orphans(AfterFiles(ix, fs, hash)) <= Orphans(ix)
  {
    if fs != [] {
      AfterFilesOrphans(ix, fs[..|fs| - 1], hash);
    }
  }

  /** A run leaves at most one path with chunks and no row behind: the file it stopped at. */
  lemma RunOrphans(ix: Index, r: Run, hash: Hash)
    requires WellFormed(r)
    ensures Orphans(AfterRun(ix, r, hash)) <= Orphans(ix) + if r.StoppedRun? then {r.files[r.n].key} else {}
  {
    AfterFilesOrphans(ix, if r.CompleteRun? then r.files else r.files[..r.n], hash);
  }

  // ----- A completed run is a rebuild, and exactly when -----

  ghost predicate Injective(hash: Hash) {
    forall c, d :: hash(c) == hash(d) ==> c == d
  }

  predicate AllReadable(fs: seq<WalkedFile>) {
    forall f | f in fs :: f.Readable()
  }

  /** What the walk says about a path: its last entry that can be read. */
  function LastReadable(fs: seq<WalkedFile>, path: string): Option<WalkedFile> {
    if fs == [] then None
    else if fs[|fs| - 1].key == path && fs[|fs| - 1].Readable() then Some(fs[|fs| - 1])
    else LastReadable(fs[..|fs| - 1], path)
  }

  /** The chunks and the row of a path as a rebuild from this entry has them. */
  predicate Rebuilt(ix: Index, f: WalkedFile, hash: Hash)
    requires f.Readable()
  {
    var pieces := ChunksOf(f.content.value);
    && TextsAt(ix.texts, f.key) == pieces
    && (f.key in ix.texts <==> pieces != [])
    && (f.key in ix.files <==> pieces != [])
    && (pieces != [] ==> ix.files[f.key] == RowOf(f, hash))
  }

  lemma AfterFileRebuilt(ix: Index, f: WalkedFile, hash: Hash)
    requires Faithful(ix, hash) && Injective(hash) && f.Readable()
    ensures Rebuilt(AfterFile(ix, f, hash), f, hash)
  {
    if Unchanged(ix, f, hash) {
      assert Vouched(ix, f.key, hash);
      var c :| hash(c) == ix.files[f.key].hash && ChunksOf(c) != [] && TextsAt(ix.texts, f.key) == ChunksOf(c);
      assert c == f.content.value;
    }
  }

  /** A path is as its last readable entry says, and without one as it was. */
  predicate EndsAs(ix: Index, jx: Index, fs: seq<WalkedFile>, hash: Hash, path: string) {
    var last := LastReadable(fs, path);
    && (last.Some? ==> path in Keys(fs) && last.value.key == path && last.value.Readable() && Rebuilt(jx, last.value, hash))
    && (last.None? ==> SameAt(ix, jx, path))
  }

  /** A walked path ends as its last readable entry says; any other is untouched. */
  lemma {:induction false} AfterFilesAt(ix: Index, fs: seq<WalkedFile>, hash: Hash, path: string)
    requires Faithful(ix, hash) && Injective(hash)
    ensures EndsAs(ix, AfterFiles(ix, fs, hash), fs, hash, path)
  {
    if fs != [] {
      var f, before := fs[|fs| - 1], fs[..|fs| - 1];
      AfterFilesAt(ix, before, hash, path);
      AfterFilesFaithful(ix, before, hash);
      if f.Readable() {
        AfterFileRebuilt(AfterFiles(ix, before, hash), f, hash);
      }
      OneMoreEntry(ix, AfterFiles(ix, before, hash), fs, hash, path);
    }
  }

  lemma OneMoreEntry(ix: Index, mid: Index, fs: seq<WalkedFile>, hash: Hash, path: string)
    requires fs != []
    requires EndsAs(ix, mid, fs[..|fs| - 1], hash, path)
    requires var f := fs[|fs| - 1]; f.Readable() ==> Rebuilt(AfterFile(mid, f, hash), f, hash)
    ensures EndsAs(ix, AfterFile(mid, fs[|fs| - 1], hash), fs, hash, path)
  {
    var f, before := fs[|fs| - 1], fs[..|fs| - 1];
    assert forall x :: x in fs <==> x == f || x in before;
    if f.key != path {
      AfterFileElsewhere(mid, f, hash, path);
    }
  }

  lemma AfterFileElsewhere(ix: Index, f: WalkedFile, hash: Hash, path: string)
    requires f.key != path
    ensures SameAt(ix, AfterFile(ix, f, hash), path)
  {
  }

  predicate SameAt(ix: Index, jx: Index, path: string) {
    && (path in ix.files <==> path in jx.files) && (path in ix.files ==> ix.files[path] == jx.files[path])
    && (path in ix.texts <==> path in jx.texts) && (path in ix.texts ==> ix.texts[path] == jx.texts[path])
  }

  lemma SameEverywhere(ix: Index, jx: Index)
    requires forall path :: SameAt(ix, jx, path)
    ensures ix == jx
  {
    forall path
      ensures path in ix.files <==> path in jx.files
      ensures path in ix.texts <==> path in jx.texts
    {
      assert SameAt(ix, jx, path);
    }
    forall path | path in ix.files ensures ix.files[path] == jx.files[path] { assert SameAt(ix, jx, path); }
    forall path | path in ix.texts ensures ix.texts[path] == jx.texts[path] { assert SameAt(ix, jx, path); }
    assert ix.files == jx.files && ix.texts == jx.texts;
  }

  /** The path's chunks and row in the index are made anew or dropped by a completed run. */
  predicate Renewed(ix: Index, fs: seq<WalkedFile>, path: string) {
    LastReadable(fs, path).Some? || (path in ix.files && path !in Keys(fs))
  }

  lemma CompletedAt(ix: Index, fs: seq<WalkedFile>, hash: Hash, path: string)
    requires Faithful(ix, hash) && Injective(hash)
    ensures var jx := Completed(ix, fs, hash);
            var last := LastReadable(fs, path);
            && (last.Some? ==> last.value.Readable() && last.value.key == path && Rebuilt(jx, last.value, hash))
            && (last.None? && Renewed(ix, fs, path) ==> path !in jx.files && path !in jx.texts)
            && (!Renewed(ix, fs, path) ==> SameAt(ix, jx, path))
  {
    AfterFilesAt(ix, fs, hash, path);
  }

  predicate Known(ix: Index, path: string) {
    path in ix.files || path in ix.texts
  }

  lemma RebuiltAt(ix: Index, fs: seq<WalkedFile>, hash: Hash, path: string)
    requires Faithful(ix, hash) && Injective(hash)
    ensures SameAt(Completed(ix, fs, hash), Completed(EMPTY, fs, hash), path) <==> (Known(ix, path) ==> Renewed(ix, fs, path))
  {
    CompletedAt(ix, fs, hash, path);
    CompletedAt(EMPTY, fs, hash, path);
  }

  /** A completed run leaves exactly the index that a full rebuild from the same walk makes
      if and only if every path in the index was read by the walk, or has a row and was not
      walked at all. */
  lemma CompletedIsRebuildIff(ix: Index, fs: seq<WalkedFile>, hash: Hash)
    requires Faithful(ix, hash) && Injective(hash)
    ensures Completed(ix, fs, hash) == Completed(EMPTY, fs, hash) <==>
            forall path :: Known(ix, path) ==> Renewed(ix, fs, path)
  {
    var jx, scratch := Completed(ix, fs, hash), Completed(EMPTY, fs, hash);
    forall path ensures SameAt(jx, scratch, path) <==> (Known(ix, path) ==> Renewed(ix, fs, path)) {
      RebuiltAt(ix, fs, hash, path);
    }
    if forall path :: Known(ix, path) ==> Renewed(ix, fs, path) {
      SameEverywhere(jx, scratch);
    } else {
      var path :| Known(ix, path) && !Renewed(ix, fs, path);
      assert !SameAt(jx, scratch, path);
    }
  }

  /** Where all walked files can be read, that comes down to the paths with chunks and no
      row: they must have been walked. */
  lemma ReadableWalkRebuildsIff(ix: Index, fs: seq<WalkedFile>, hash: Hash)
    requires Faithful(ix, hash) && Injective(hash) && AllReadable(fs)
    ensures Completed(ix, fs, hash) == Completed(EMPTY, fs, hash) <==> Orphans(ix) <= Keys(fs)
  {
    CompletedIsRebuildIff(ix, fs, hash);
    forall path ensures path in Keys(fs) <==> LastReadable(fs, path).Some? {
      WalkedIsRead(fs, path);
    }
    forall path ensures (Known(ix, path) ==> Renewed(ix, fs, path)) <==> (path in Orphans(ix) ==> path in Keys(fs)) {
    }
    if Orphans(ix) <= Keys(fs) {
      assert forall path :: path in Orphans(ix) ==> path in Keys(fs);
    }
  }

  lemma {:induction false} WalkedIsRead(fs: seq<WalkedFile>, path: string)
    requires AllReadable(fs)
    ensures path in Keys(fs) <==> LastReadable(fs, path).Some?
  {
    if fs != [] {
      var f, before := fs[|fs| - 1], fs[..|fs| - 1];
      assert forall x :: x in fs <==> x == f || x in before;
      WalkedIsRead(before, path);
      assert Keys(fs) == Keys(before) + {f.key};
    }
  }

  /** A history of runs that all completed never leaves chunks without a row. */
  lemma {:induction false} CompletedHistoryHasNoOrphans(rs: seq<Run>, hash: Hash)
    requires forall r | r in rs :: r.CompleteRun?
    ensures Orphans(AfterRuns(EMPTY, rs, hash)) == {}
  {
    if rs != [] {
      CompletedHistoryHasNoOrphans(rs[..|rs| - 1], hash);
      RunOrphans(AfterRuns(EMPTY, rs[..|rs| - 1], hash), rs[|rs| - 1], hash);
    }
  }

  // ----- Runs over the same walk again -----

  /** Two entries for the same path that a run brings to the same state. */
  predicate Agree(f: WalkedFile, g: WalkedFile) {
    f.key == g.key && f.Readable() && g.Readable() ==>
      (f.content == g.content && f.stat == g.stat) || (ChunksOf(f.content.value) == [] && ChunksOf(g.content.value) == [])
  }

  /** Where a path is left as its entry `g` says, another entry is quiet exactly if they agree. */
  lemma QuietAgree(jx: Index, f: WalkedFile, g: WalkedFile, hash: Hash)
    requires Injective(hash) && f.Readable() && g.Readable() && f.key == g.key && Rebuilt(jx, g, hash)
    ensures Quiet(jx, f, hash) <==> Agree(f, g)
  {
    assert f.stat == g.stat <==> f.stat.value == g.stat.value;
  }

  lemma {:induction false} HasLast(fs: seq<WalkedFile>, f: WalkedFile)
    requires f in fs && f.Readable()
    ensures LastReadable(fs, f.key).Some? && LastReadable(fs, f.key).value in fs
  {
    var last, before := fs[|fs| - 1], fs[..|fs| - 1];
    assert forall x :: x in fs <==> x == last || x in before;
    if last.key != f.key || !last.Readable() {
      HasLast(before, f);
    }
  }

  lemma AgreeTrans(f: WalkedFile, g: WalkedFile, last: WalkedFile)
    requires last.Readable() && Agree(f, last) && Agree(g, last)
    requires f.Readable() && g.Readable() && f.key == g.key ==> f.key == last.key
    ensures Agree(f, g)
  {
  }

  /** After a completed run, everything is quiet for the same walk if and only if its entries
      for the same path agree. */
  lemma RepeatIsQuietIff(ix: Index, fs: seq<WalkedFile>, hash: Hash)
    requires Faithful(ix, hash) && Injective(hash)
    ensures AllQuiet(Completed(ix, fs, hash), fs, hash) <==> forall f, g | f in fs && g in fs :: Agree(f, g)
  {
    var jx := Completed(ix, fs, hash);
    forall f | f in fs && f.Readable()
      ensures var last := LastReadable(fs, f.key);
              last.Some? && last.value in fs && last.value.Readable() && last.value.key == f.key
              && (Quiet(jx, f, hash) <==> Agree(f, last.value))
    {
      HasLast(fs, f);
      CompletedAt(ix, fs, hash, f.key);
      QuietAgree(jx, f, LastReadable(fs, f.key).value, hash);
    }
    if AllQuiet(jx, fs, hash) {
      forall f, g | f in fs && g in fs ensures Agree(f, g) {
        if f.Readable() && g.Readable() && f.key == g.key {
          AgreeTrans(f, g, LastReadable(fs, f.key).value);
        }
      }
    }
  }

  /** No path is read twice. */
  predicate DistinctPaths(fs: seq<WalkedFile>) {
    forall i, j | 0 <= i < j < |fs| :: fs[i].key != fs[j].key
  }

  lemma {:induction false} FilesElsewhere(ix: Index, fs: seq<WalkedFile>, hash: Hash, path: string)
    requires forall f | f in fs :: f.key != path
    ensures SameAt(ix, AfterFiles(ix, fs, hash), path)
  {
    if fs != [] {
      var last, before := fs[|fs| - 1], fs[..|fs| - 1];
      assert last in fs;
      FilesElsewhere(ix, before, hash, path);
      AfterFileElsewhere(AfterFiles(ix, before, hash), last, hash, path);
    }
  }

  function TotalFresh(ix: Index, fs: seq<WalkedFile>, hash: Hash): nat {
    if fs == [] then 0 else TotalFresh(ix, fs[..|fs| - 1], hash) + Fresh(ix, fs[|fs| - 1], hash)
  }

  /** Where no path is walked twice, what is to be done for each file is decided by the index
      in front of the run alone. */
  lemma {:induction false} WorkIsFresh(ix: Index, fs: seq<WalkedFile>, hash: Hash)
    requires DistinctPaths(fs)
    ensures Work(ix, fs, hash) == TotalFresh(ix, fs, hash)
  {
    if fs != [] {
      var last, before := fs[|fs| - 1], fs[..|fs| - 1];
      WorkIsFresh(ix, before, hash);
      FilesElsewhere(ix, before, hash, last.key);
    }
  }
}
