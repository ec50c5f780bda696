/** Walking files into the database: `run_ingest` and `flush_path_batch`. */
module Ingest {
  import ChunkText
  import opened IngestIndex
  import opened RagDatabase
  import opened Sequences
  import opened VectorBlob
  import opened Wrappers

  const EMBED_BATCH := 16
  const I32_MAX := 0x7FFF_FFFF
  const I64_MAX := 0x7FFF_FFFF_FFFF_FFFF

  datatype IngestError =
    | EmbeddingFailed
    | BatchSizeMismatch
    | Database(error: DbError)
    | FileTooLarge
    | TooManyChunks

  datatype Stats = Stats(filesIndexed: nat, chunksTotal: nat, embeddingsWritten: nat)

  /** The embedding service. It may answer each call as it likes, or not at all. */
  class Embedder {
    const answer: (nat, seq<string>) -> Option<seq<seq<word>>>
    var calls: nat

    constructor (answer: (nat, seq<string>) -> Option<seq<seq<word>>>)
      ensures this.answer == answer && calls == 0
    {
      this.answer, calls := answer, 0;
    }

    method EmbedBatch(texts: seq<string>) returns (vecs: Option<seq<seq<word>>>)
      modifies this
      ensures vecs == answer(old(calls), texts) && calls == old(calls) + 1
    {
      vecs := answer(calls, texts);
      calls := calls + 1;
    }
  }

  /** A chunk waiting to be embedded, with its ordinal. */
  type Batch = seq<(nat, string)>

  function BatchTexts(batch: Batch): seq<string> {
    seq(|batch|, i requires 0 <= i < |batch| => batch[i].1)
  }

  /** The chunks `from` to `to` of a file, waiting. */
  function BatchOf(pieces: seq<string>, from: nat, to: nat): Batch
    requires from <= to <= |pieces|
  {
    seq(to - from, i requires 0 <= i < to - from => (from + i, pieces[from + i]))
  }

  lemma BatchStep(pieces: seq<string>, from: nat, to: nat)
    requires from <= to < |pieces|
    ensures BatchOf(pieces, from, to + 1) == BatchOf(pieces, from, to) + [(to, pieces[to])]
    ensures BatchTexts(BatchOf(pieces, from, to)) == pieces[from..to]
    ensures BatchTexts(BatchOf(pieces, from, to + 1)) == pieces[from..to + 1]
  {
  }

  function View(db: RagDatabase.Database): Index
    reads db
  {
    Index(db.files, TextsOf(db.chunks))
  }

  // ----- Which vector belongs to which text -----

  /** The embedding row that a text deserves. */
  type Meaning = string -> EmbeddingRow

  /** Whenever the service answers with as many vectors as it got texts, they are theirs. */
  ghost predicate Honest(answer: (nat, seq<string>) -> Option<seq<seq<word>>>, meaning: Meaning) {
    forall n, texts | answer(n, texts).Some? && |answer(n, texts).value| == |texts| ::
      forall i | 0 <= i < |texts| :: StoredAs(answer(n, texts).value[i]) == meaning(texts[i])
  }

  /** The service answers every call with as many vectors as it got texts. */
  ghost predicate Willing(answer: (nat, seq<string>) -> Option<seq<seq<word>>>) {
    forall n, texts :: answer(n, texts).Some? && |answer(n, texts).value| == |texts|
  }

  /** How many calls it takes to embed `n` chunks of a file. */
  function Calls(n: nat): nat {
    (n + EMBED_BATCH - 1) / EMBED_BATCH
  }

  function StoredAs(vec: seq<word>): EmbeddingRow {
    EmbeddingRow(|vec|, ToBlob(vec))
  }

  /** Every chunk is stored with the vector of its own text. */
  ghost predicate EmbeddedBy(chunks: seq<ChunkRow>, embeddings: map<nat, EmbeddingRow>, meaning: Meaning) {
    forall c | c in chunks :: c.id in embeddings && embeddings[c.id] == meaning(c.text)
  }

  ghost predicate Paired(db: RagDatabase.Database, meaning: Meaning)
    reads db`chunks, db`embeddings
  {
    EmbeddedBy(db.chunks, db.embeddings, meaning)
  }

  lemma EmbeddedAppend(chunks: seq<ChunkRow>, embeddings: map<nat, EmbeddingRow>, c: ChunkRow, meaning: Meaning)
    requires EmbeddedBy(chunks, embeddings, meaning) && IdsAscend(chunks, c.id)
    ensures EmbeddedBy(chunks + [c], embeddings[c.id := meaning(c.text)], meaning)
  {
    IdsBelow(chunks, c.id);
  }

  lemma EmbeddedWithout(chunks: seq<ChunkRow>, was: map<nat, EmbeddingRow>, path: string, now: map<nat, EmbeddingRow>, meaning: Meaning)
    requires EmbeddedBy(chunks, was, meaning) && now.Keys == Ids(Without(chunks, path))
    requires forall id | id in now :: id in was && now[id] == was[id]
    ensures EmbeddedBy(Without(chunks, path), now, meaning)
  {
    forall c | c in Without(chunks, path) ensures c in chunks && c.id in now {
      WithoutMembers(chunks, path, c);
      assert c.id in Ids(Without(chunks, path));
    }
  }

  /** A query reads each text with its own vector. */
  lemma QueriedVectors(row: IndexedRow, chunk: ChunkRow, chunks: seq<ChunkRow>, embeddings: map<nat, EmbeddingRow>, vector: string -> seq<word>)
    requires EmbeddedBy(chunks, embeddings, t => StoredAs(vector(t))) && chunk in chunks && Joined(row, chunk, embeddings)
    ensures row.vec == vector(row.text)
  {
    BlobRoundTrip(row.vec);
    BlobRoundTrip(vector(row.text));
  }

  /** Embeds and stores a batch of the next chunks of a path, or leaves the database alone. */
  method FlushPathBatch(db: RagDatabase.Database, path: string, batch: Batch, embedder: Embedder, stats: Stats, ghost meaning: Meaning)
    returns (r: Result<Stats, IngestError>)
    requires db.Valid()
    requires forall i | 0 <= i < |batch| :: batch[i].0 == |TextsAt(TextsOf(db.chunks), path)| + i
    modifies db`chunks, db`embeddings, db`nextId, embedder
    ensures db.Valid()
    ensures r.Err? ==> View(db) == old(View(db))
    ensures embedder.calls == old(embedder.calls) + if batch == [] then 0 else 1
    ensures var answer := embedder.answer(old(embedder.calls), BatchTexts(batch));
            && (r.Ok? <==> batch == [] || (answer.Some? && |answer.value| == |batch|))
            && (r.Err? ==> r.error == if answer.None? then EmbeddingFailed else BatchSizeMismatch)
    ensures r.Ok? ==>
              && r.value == stats.(embeddingsWritten := stats.embeddingsWritten + |batch|)
              && TextsOf(db.chunks) == if batch == [] then TextsOf(old(db.chunks))
                 else TextsOf(old(db.chunks))[path := TextsAt(TextsOf(old(db.chunks)), path) + BatchTexts(batch)]
    ensures Honest(embedder.answer, meaning) && old(Paired(db, meaning)) ==> Paired(db, meaning)
  {
    if batch == [] {
      return Ok(stats);
    }
    var vecs := embedder.EmbedBatch(BatchTexts(batch));
    if vecs.None? {
      return Err(EmbeddingFailed);
    }
    if |vecs.value| != |batch| {
      return Err(BatchSizeMismatch);
    }
    StoreBatch(db, path, batch, vecs.value, meaning);
    return Ok(stats.(embeddingsWritten := stats.embeddingsWritten + |batch|));
  }

  /** Stores a batch with its vectors, row by row; no constraint is ever in the way. */
  method StoreBatch(db: RagDatabase.Database, path: string, batch: Batch, vecs: seq<seq<word>>, ghost meaning: Meaning)
    requires db.Valid() && batch != [] && |vecs| == |batch|
    requires forall i | 0 <= i < |batch| :: batch[i].0 == |TextsAt(TextsOf(db.chunks), path)| + i
    modifies db`chunks, db`embeddings, db`nextId
    ensures db.Valid()
    ensures TextsOf(db.chunks) == TextsOf(old(db.chunks))[path := TextsAt(TextsOf(old(db.chunks)), path) + BatchTexts(batch)]
    ensures Meant(batch, vecs, meaning) && old(Paired(db, meaning)) ==> Paired(db, meaning)
  {
    ghost var m := TextsOf(db.chunks);
    ghost var texts := BatchTexts(batch);
    for i := 0 to |batch|
      invariant db.Valid()
      invariant TextsOf(db.chunks) == Extended(m, path, texts[..i])
      invariant Meant(batch, vecs, meaning) && old(Paired(db, meaning)) ==> Paired(db, meaning)
    {
      ExtendOnce(m, path, texts, i);
      var (ordinal, text) := batch[i];
      StoreOne(db, path, ordinal, text, vecs[i], meaning);
    }
    assert texts[..|batch|] == texts;
  }

  /** The vectors answer the texts of the batch, in order. */
  ghost predicate Meant(batch: Batch, vecs: seq<seq<word>>, meaning: Meaning)
    requires |vecs| == |batch|
  {
    forall i | 0 <= i < |batch| :: StoredAs(vecs[i]) == meaning(batch[i].1)
  }

  method StoreOne(db: RagDatabase.Database, path: string, ordinal: nat, text: string, vec: seq<word>, ghost meaning: Meaning)
    requires db.Valid() && ordinal == |TextsAt(TextsOf(db.chunks), path)|
    modifies db`chunks, db`embeddings, db`nextId
    ensures db.Valid()
    ensures TextsOf(db.chunks) == TextsOf(old(db.chunks))[path := TextsAt(TextsOf(old(db.chunks)), path) + [text]]
    ensures StoredAs(vec) == meaning(text) && old(Paired(db, meaning)) ==> Paired(db, meaning)
  {
    if StoredAs(vec) == meaning(text) && Paired(db, meaning) {
      EmbeddedAppend(db.chunks, db.embeddings, ChunkRow(db.nextId, path, ordinal, text), meaning);
    }
    var stored := db.InsertEmbedded(path, ordinal, text, vec);
  }

  function Extended(m: Texts, path: string, texts: seq<string>): Texts {
    if texts == [] then m else m[path := TextsAt(m, path) + texts]
  }

  lemma ExtendOnce(m: Texts, path: string, texts: seq<string>, i: nat)
    requires i < |texts|
    ensures var so := Extended(m, path, texts[..i]);
            && TextsAt(so, path) == TextsAt(m, path) + texts[..i]
            && so[path := TextsAt(so, path) + [texts[i]]] == Extended(m, path, texts[..i + 1])
  {
    assert texts[..i + 1] == texts[..i] + [texts[i]];
    ConcatAssociative(TextsAt(m, path), texts[..i], [texts[i]]);
  }

  predicate ServiceError(e: IngestError) {
    e.EmbeddingFailed? || e.BatchSizeMismatch?
  }

  /** Flushes the chunks of a path that wait between `from` and `to`. */
  method FlushPieces(db: RagDatabase.Database, path: string, batch: Batch, embedder: Embedder, stats: Stats,
                     ghost meaning: Meaning, ghost m: Texts, ghost pieces: seq<string>, ghost from: nat, ghost to: nat)
    returns (r: Result<Stats, IngestError>)
    requires db.Valid() && path !in m && from <= to <= |pieces| && batch == BatchOf(pieces, from, to)
    requires TextsOf(db.chunks) == Put(m, path, pieces[..from])
    modifies db`chunks, db`embeddings, db`nextId, embedder
    ensures db.Valid()
    ensures r.Err? ==> from < to && ServiceError(r.error) && TextsOf(db.chunks) == Put(m, path, pieces[..from])
    ensures embedder.calls == old(embedder.calls) + if from < to then 1 else 0
    ensures Willing(embedder.answer) ==> r.Ok?
    ensures r.Ok? ==> TextsOf(db.chunks) == Put(m, path, pieces[..to])
    ensures r.Ok? ==> r.value == stats.(embeddingsWritten := stats.embeddingsWritten + (to - from))
    ensures Honest(embedder.answer, meaning) && old(Paired(db, meaning)) ==> Paired(db, meaning)
  {
    PutMore(m, path, pieces, from, to);
    r := FlushPathBatch(db, path, batch, embedder, stats, meaning);
  }

  /** The first `k` chunks are stored, and those up to `ordinal` wait in the batch. */
  ghost predicate Storing(db: RagDatabase.Database, path: string, batch: Batch, m: Texts, pieces: seq<string>, k: nat, ordinal: nat)
    reads db
  {
    && db.Valid() && path !in m
    && k <= ordinal <= |pieces| && ordinal - k < EMBED_BATCH && k % EMBED_BATCH == 0
    && TextsOf(db.chunks) == Put(m, path, pieces[..k])
    && batch == BatchOf(pieces, k, ordinal)
  }

  lemma FullBatch(k: nat, ordinal: nat)
    requires k % EMBED_BATCH == 0 && k <= ordinal && ordinal - k < EMBED_BATCH <= ordinal + 1 - k
    ensures (ordinal + 1) % EMBED_BATCH == 0
  {
  }

  lemma NothingWaits(pieces: seq<string>, k: nat)
    requires k <= |pieces|
    ensures BatchOf(pieces, k, k) == []
  {
  }

  /** Takes in the next chunk, and flushes the batch if that fills it. */
  method StorePiece(db: RagDatabase.Database, path: string, pieces: seq<string>, ordinal: nat, batch: Batch, embedder: Embedder,
                    stats: Stats, ghost meaning: Meaning, ghost m: Texts, ghost k: nat, ghost sound: bool)
    returns (r: Result<(Stats, Batch), IngestError>, ghost now: nat)
    requires Storing(db, path, batch, m, pieces, k, ordinal) && ordinal < |pieces|
    requires sound ==> Honest(embedder.answer, meaning) && Paired(db, meaning)
    modifies db`chunks, db`embeddings, db`nextId, embedder
    ensures r.Ok? ==>
              && Storing(db, path, r.value.1, m, pieces, now, ordinal + 1) && k <= now
              && r.value.0 == Stats(stats.filesIndexed, stats.chunksTotal + 1, stats.embeddingsWritten + (now - k))
    ensures r.Err? ==> now <= ordinal && StoredTo(db, path, m, pieces, now)
    ensures r.Err? ==> if ordinal > I32_MAX then r.error.TooManyChunks? else ServiceError(r.error)
    ensures r.Ok? ==> embedder.calls * EMBED_BATCH == old(embedder.calls) * EMBED_BATCH + (now - k)
    ensures Willing(embedder.answer) && ordinal <= I32_MAX ==> r.Ok?
    ensures sound ==> Paired(db, meaning)
  {
    var st := stats.(chunksTotal := stats.chunksTotal + 1);
    if ordinal > I32_MAX {
      return Err(TooManyChunks), k;
    }
    BatchStep(pieces, k, ordinal);
    var filled := batch + [(ordinal, pieces[ordinal])];
    if |filled| >= EMBED_BATCH {
      FullBatch(k, ordinal);
      var flushed := FlushPieces(db, path, filled, embedder, st, meaning, m, pieces, k, ordinal + 1);
      if flushed.Err? {
        return Err(flushed.error), k;
      }
      NothingWaits(pieces, ordinal + 1);
      return Ok((flushed.value, [])), ordinal + 1;
    }
    return Ok((st, filled)), k;
  }

  /** Takes in all chunks of a path, flushing each full batch. */
  method StoreLoop(db: RagDatabase.Database, path: string, pieces: seq<string>, embedder: Embedder, stats: Stats,
                   ghost meaning: Meaning, ghost m: Texts, ghost sound: bool)
    returns (r: Result<(Stats, Batch), IngestError>, ghost k: nat)
    requires Storing(db, path, [], m, pieces, 0, 0)
    requires sound ==> Honest(embedder.answer, meaning) && Paired(db, meaning)
    modifies db`chunks, db`embeddings, db`nextId, embedder
    ensures r.Ok? ==>
              && Storing(db, path, r.value.1, m, pieces, k, |pieces|)
              && r.value.0 == Stats(stats.filesIndexed, stats.chunksTotal + |pieces|, stats.embeddingsWritten + k)
    ensures r.Err? ==> k < |pieces| && StoredTo(db, path, m, pieces, k) && StopError(r.error, |pieces|)
    ensures r.Ok? ==> embedder.calls * EMBED_BATCH == old(embedder.calls) * EMBED_BATCH + k
    ensures Willing(embedder.answer) && |pieces| <= I32_MAX + 1 ==> r.Ok?
    ensures sound ==> Paired(db, meaning)
  {
    var batch: Batch := [];
    var st := stats;
    k := 0;
    for ordinal := 0 to |pieces|
      invariant Storing(db, path, batch, m, pieces, k, ordinal)
      invariant st == Stats(stats.filesIndexed, stats.chunksTotal + ordinal, stats.embeddingsWritten + k)
      invariant embedder.calls * EMBED_BATCH == old(embedder.calls) * EMBED_BATCH + k
      invariant sound ==> Paired(db, meaning)
    {
      var one;
      one, k := StorePiece(db, path, pieces, ordinal, batch, embedder, st, meaning, m, k, sound);
      if one.Err? {
        return Err(one.error), k;
      }
      st, batch := one.value.0, one.value.1;
    }
    return Ok((st, batch)), k;
  }

  /** What can stop a run at a file of `n` chunks. */
  predicate StopError(e: IngestError, n: nat) {
    ServiceError(e) || (e.TooManyChunks? && n > I32_MAX + 1)
  }

  ghost predicate StoredTo(db: RagDatabase.Database, path: string, m: Texts, pieces: seq<string>, k: nat)
    reads db
  {
    db.Valid() && k <= |pieces| && k % EMBED_BATCH == 0 && TextsOf(db.chunks) == Put(m, path, pieces[..k])
  }

  /** Stores all chunks of a path whose old ones are gone; stopping leaves a first part,
      of whole batches. */
  method StorePieces(db: RagDatabase.Database, path: string, pieces: seq<string>, embedder: Embedder, stats: Stats, ghost meaning: Meaning)
    returns (r: Result<Stats, IngestError>, ghost k: nat)
    requires db.Valid() && path !in TextsOf(db.chunks) && pieces != []
    modifies db`chunks, db`embeddings, db`nextId, embedder
    ensures db.Valid()
    ensures k <= |pieces| && TextsOf(db.chunks) == Put(TextsOf(old(db.chunks)), path, pieces[..k])
    ensures r.Ok? ==> k == |pieces| && r.value == Stats(stats.filesIndexed, stats.chunksTotal + k, stats.embeddingsWritten + k)
    ensures r.Err? ==> k < |pieces| && k % EMBED_BATCH == 0 && StopError(r.error, |pieces|)
    ensures r.Ok? ==> embedder.calls == old(embedder.calls) + Calls(|pieces|)
    ensures Willing(embedder.answer) && |pieces| <= I32_MAX + 1 ==> r.Ok?
    ensures Honest(embedder.answer, meaning) && old(Paired(db, meaning)) ==> Paired(db, meaning)
  {
    ghost var m := TextsOf(db.chunks);
    var most;
    most, k := StoreLoop(db, path, pieces, embedder, stats, meaning, m, Honest(embedder.answer, meaning) && Paired(db, meaning));
    if most.Err? {
      return Err(most.error), k;
    }
    ghost var most16 := embedder.calls;
    r := FlushPieces(db, path, most.value.1, embedder, most.value.0, meaning, m, pieces, k, |pieces|);
    if r.Ok? {
      CallsFor(|pieces|, k, most16 - old(embedder.calls));
      k := |pieces|;
    }
  }

  lemma CallsFor(n: nat, k: nat, calls: int)
    requires k <= n && n - k < EMBED_BATCH && calls * EMBED_BATCH == k
    ensures Calls(n) == calls + if k < n then 1 else 0
  {
  }

  lemma PutMore(m: Texts, path: string, pieces: seq<string>, k: nat, to: nat)
    requires k <= to <= |pieces| && path !in m
    ensures var stored := Put(m, path, pieces[..k]);
            && TextsAt(stored, path) == pieces[..k]
            && (k < to ==> stored[path := TextsAt(stored, path) + pieces[k..to]] == Put(m, path, pieces[..to]))
    ensures BatchTexts(BatchOf(pieces, k, to)) == pieces[k..to]
  {
    assert pieces[..k] + pieces[k..to] == pieces[..to];
  }

  /** Replaces the chunks of a file that changed. */
  method Reindex(db: RagDatabase.Database, f: WalkedFile, raw: string, row: FileRow, embedder: Embedder, stats: Stats, ghost meaning: Meaning)
    returns (r: Result<Stats, IngestError>, ghost k: nat)
    requires db.Valid()
    modifies db, embedder
    ensures db.Valid() && k <= |ChunksOf(raw)|
    ensures r.Ok? ==> View(db) == Reindexed(old(View(db)), f.key, ChunksOf(raw), row)
    ensures r.Err? ==> View(db) == PartlyIndexed(old(View(db)), f.key, ChunksOf(raw)[..k]) && k % EMBED_BATCH == 0
    ensures r.Err? ==> k < |ChunksOf(raw)| && StopError(r.error, |ChunksOf(raw)|)
    ensures r.Ok? ==> k == |ChunksOf(raw)| && embedder.calls == old(embedder.calls) + Calls(k)
    ensures ChunksOf(raw) == [] || (Willing(embedder.answer) && |ChunksOf(raw)| <= I32_MAX + 1) ==> r.Ok?
    ensures r.Ok? ==> r.value == Stats(stats.filesIndexed, stats.chunksTotal + k, stats.embeddingsWritten + k)
    ensures Honest(embedder.answer, meaning) && old(Paired(db, meaning)) ==> Paired(db, meaning)
  {
    var pieces := ChunkText.ChunkTextLoop(raw, CHUNK_CHARS, CHUNK_OVERLAP);
    r, k := ReplaceChunks(db, f.key, pieces, row, embedder, stats, meaning);
  }

  /** Drops the old chunks of a path, stores the new ones, and then its row. */
  method ReplaceChunks(db: RagDatabase.Database, path: string, pieces: seq<string>, row: FileRow, embedder: Embedder, stats: Stats,
                       ghost meaning: Meaning)
    returns (r: Result<Stats, IngestError>, ghost k: nat)
    requires db.Valid()
    modifies db, embedder
    ensures db.Valid() && k <= |pieces|
    ensures r.Ok? ==> View(db) == Reindexed(old(View(db)), path, pieces, row)
    ensures r.Err? ==> View(db) == PartlyIndexed(old(View(db)), path, pieces[..k]) && k % EMBED_BATCH == 0
    ensures r.Err? ==> k < |pieces| && StopError(r.error, |pieces|)
    ensures r.Ok? ==> k == |pieces| && embedder.calls == old(embedder.calls) + Calls(k)
    ensures pieces == [] || (Willing(embedder.answer) && |pieces| <= I32_MAX + 1) ==> r.Ok?
    ensures r.Ok? ==> r.value == Stats(stats.filesIndexed, stats.chunksTotal + k, stats.embeddingsWritten + k)
    ensures Honest(embedder.answer, meaning) && old(Paired(db, meaning)) ==> Paired(db, meaning)
  {
    ghost var before := View(db);
    DeletePaired(db, path, meaning);
    k := 0;
    if pieces == [] {
      return Ok(stats), 0;
    }
    r, k := StorePieces(db, path, pieces, embedder, stats, meaning);
    PutAfterDelete(before.texts, path, pieces[..k]);
    if r.Ok? {
      assert pieces[..k] == pieces;
      db.UpsertFileMeta(path, row);
      UpsertAfterDelete(before.files, path, row);
    }
  }

  method DeletePaired(db: RagDatabase.Database, path: string, ghost meaning: Meaning)
    requires db.Valid()
    modifies db
    ensures db.Valid() && View(db) == Delete(old(View(db)), path)
    ensures old(Paired(db, meaning)) ==> Paired(db, meaning)
  {
    ghost var chunks, embeddings := db.chunks, db.embeddings;
    db.DeleteFileAndChunks(path);
    if EmbeddedBy(chunks, embeddings, meaning) {
      EmbeddedWithout(chunks, embeddings, path, db.embeddings, meaning);
    }
  }

  lemma PutAfterDelete(m: Texts, path: string, texts: seq<string>)
    ensures Put(m - {path}, path, texts) == Put(m, path, texts)
  {
  }

  lemma UpsertAfterDelete(m: map<string, FileRow>, path: string, row: FileRow)
    ensures (m - {path})[path := row] == m[path := row]
  {
  }

  /** The size of the file, if it can be told, fits into the database. */
  predicate Fits(f: WalkedFile) {
    f.stat.Some? ==> f.stat.value.size <= I64_MAX
  }

  /** A service that answers can embed so many chunks of a file; for none there is no need. */
  ghost predicate CanEmbed(answer: (nat, seq<string>) -> Option<seq<seq<word>>>, n: nat) {
    n == 0 || (Willing(answer) && n <= I32_MAX + 1)
  }

  /** The path has the first `k` chunks of the file and no row. */
  predicate StoppedWith(ix: Index, f: WalkedFile, k: nat) {
    && f.content.Some? && k < |ChunksOf(f.content.value)|
    && f.key !in ix.files && TextsAt(ix.texts, f.key) == ChunksOf(f.content.value)[..k]
  }

  /** The index brought up to date with one file, the numbers counted, and the calls made. */
  ghost predicate Updated(ix: Index, jx: Index, f: WalkedFile, hash: Hash, before: Stats, after: Stats, calls: int) {
    var n := Fresh(ix, f, hash);
    && jx == AfterFile(ix, f, hash) && calls == Calls(n)
    && after == Stats(before.filesIndexed, before.chunksTotal + n, before.embeddingsWritten + n)
  }

  /** The index when a run stops at a file: refused, or with whole batches of it stored. */
  ghost predicate Stopped(ix: Index, jx: Index, f: WalkedFile, e: IngestError, stored: Option<nat>) {
    && !e.Database? && (e.FileTooLarge? <==> !Fits(f)) && (e.FileTooLarge? <==> stored.None?)
    && jx == (if stored.None? then ix else StoppedAt(ix, f, stored.value))
    && (stored.Some? ==> stored.value % EMBED_BATCH == 0 && StoppedWith(jx, f, stored.value))
  }

  lemma FileSkipped(ix: Index, f: WalkedFile, hash: Hash, stats: Stats)
    requires f.stat.None? || f.content.None? || RowStands(ix, f, hash)
    ensures Updated(ix, ix, f, hash, stats, stats, 0)
  {
  }

  lemma FileUpdated(ix: Index, f: WalkedFile, hash: Hash, stats: Stats)
    requires f.Readable() && !RowStands(ix, f, hash)
    ensures var pieces := ChunksOf(f.content.value);
            Updated(ix, Reindexed(ix, f.key, pieces, RowOf(f, hash)), f, hash, stats,
              Stats(stats.filesIndexed, stats.chunksTotal + |pieces|, stats.embeddingsWritten + |pieces|), Calls(|pieces|))
  {
  }

  lemma FileStopped(ix: Index, f: WalkedFile, k: nat, e: IngestError)
    requires f.Readable() && Fits(f) && k < |ChunksOf(f.content.value)| && k % EMBED_BATCH == 0
    requires !e.Database? && !e.FileTooLarge?
    ensures Stopped(ix, PartlyIndexed(ix, f.key, ChunksOf(f.content.value)[..k]), f, e, Some(k))
  {
  }

  /** Brings the index up to date with one file. A file whose row stands is not touched, and
      nothing is asked of the service for it. */
  method IngestFile(db: RagDatabase.Database, f: WalkedFile, hash: Hash, embedder: Embedder, stats: Stats, ghost meaning: Meaning)
    returns (r: Result<Stats, IngestError>, ghost stored: Option<nat>)
    requires db.Valid()
    modifies db, embedder
    ensures db.Valid()
    ensures r.Ok? ==> Updated(old(View(db)), View(db), f, hash, stats, r.value, embedder.calls - old(embedder.calls))
    ensures r.Err? ==> Stopped(old(View(db)), View(db), f, r.error, stored)
    ensures Fits(f) && CanEmbed(embedder.answer, Fresh(old(View(db)), f, hash)) ==> r.Ok?
    ensures !Fits(f) ==> r == Err(FileTooLarge)
    ensures RowStands(old(View(db)), f, hash) && Fits(f) ==>
              r == Ok(stats) && View(db) == old(View(db)) && embedder.calls == old(embedder.calls)
    ensures Honest(embedder.answer, meaning) && old(Paired(db, meaning)) ==> Paired(db, meaning)
  {
    ghost var ix := View(db);
    if f.stat.None? {
      FileSkipped(ix, f, hash, stats);
      return Ok(stats), None;
    }
    var stat := f.stat.value;
    if stat.size > I64_MAX {
      return Err(FileTooLarge), None;
    }
    if f.content.None? {
      FileSkipped(ix, f, hash, stats);
      return Ok(stats), None;
    }
    var raw := f.content.value;
    var row := FileRow(hash(raw), stat.size, stat.mtime);
    var same := db.FileIsUnchanged(f.key, row);
    if same {
      FileSkipped(ix, f, hash, stats);
      return Ok(stats), None;
    }
    ghost var k;
    r, k := Reindex(db, f, raw, row, embedder, stats, meaning);
    stored := Some(k);
    if r.Ok? {
      FileUpdated(ix, f, hash, stats);
    } else {
      FileStopped(ix, f, k, r.error);
    }
  }

  /** The calls that a run makes over a walk, each file met as the ones before leave it. */
  function CallsOver(ix: Index, fs: seq<WalkedFile>, hash: Hash): nat {
    if fs == [] then 0
    else CallsOver(ix, fs[..|fs| - 1], hash) + Calls(Fresh(AfterFiles(ix, fs[..|fs| - 1], hash), fs[|fs| - 1], hash))
  }

  lemma {:induction false} NoWorkNoCalls(ix: Index, fs: seq<WalkedFile>, hash: Hash)
    requires Work(ix, fs, hash) == 0
    ensures CallsOver(ix, fs, hash) == 0
  {
    if fs != [] {
      NoWorkNoCalls(ix, fs[..|fs| - 1], hash);
    }
  }

  /** Nothing stands in the way of a run: all sizes fit, and the service answers, or is not
      needed at all. */
  ghost predicate Unhindered(ix: Index, fs: seq<WalkedFile>, hash: Hash, answer: (nat, seq<string>) -> Option<seq<seq<word>>>) {
    && (forall f | f in fs :: Fits(f))
    && (AllQuiet(ix, fs, hash) ||
        (Willing(answer) && forall f | f in fs && f.content.Some? :: |ChunksOf(f.content.value)| <= I32_MAX + 1))
  }

  lemma UnhinderedAt(ix: Index, fs: seq<WalkedFile>, hash: Hash, answer: (nat, seq<string>) -> Option<seq<seq<word>>>, i: nat)
    requires Unhindered(ix, fs, hash, answer) && i < |fs|
    ensures Fits(fs[i]) && CanEmbed(answer, Fresh(AfterFiles(ix, fs[..i], hash), fs[i], hash))
  {
    if AllQuiet(ix, fs, hash) {
      QuietWalk(ix, fs[..i], hash);
      QuietStays(ix, fs[i], hash);
    }
  }

  /** Brings the index up to date with a walk, file by file, then drops the rows of files
      that are gone. It completes, or stops at file `n` with its first chunks stored; it does
      complete if nothing stands in its way. */
  method RunIngest(db: RagDatabase.Database, files: seq<WalkedFile>, hash: Hash, embedder: Embedder, ghost meaning: Meaning)
    returns (r: Result<Stats, IngestError>, ghost n: nat, ghost stored: Option<nat>)
    requires db.Valid()
    modifies db, embedder
    ensures db.Valid()
    ensures r.Ok? ==> View(db) == Completed(old(View(db)), files, hash)
    ensures var work := Work(old(View(db)), files, hash); r.Ok? ==> r.value == Stats(|files|, work, work)
    ensures r.Ok? ==> embedder.calls == old(embedder.calls) + CallsOver(old(View(db)), files, hash)
    ensures Unhindered(old(View(db)), files, hash, embedder.answer) ==> r.Ok?
    ensures AllQuiet(old(View(db)), files, hash) && (forall f | f in files :: Fits(f)) ==>
              r == Ok(Stats(|files|, 0, 0)) && embedder.calls == old(embedder.calls)
    ensures r.Err? ==> !r.error.Database? && n < |files| && (r.error.FileTooLarge? <==> !Fits(files[n]))
    ensures r.Err? && stored.Some? ==> stored.value % EMBED_BATCH == 0 && StoppedWith(View(db), files[n], stored.value)
    ensures Honest(embedder.answer, meaning) && old(Paired(db, meaning)) ==> Paired(db, meaning)
    ensures r.Err? ==>
              View(db) == AfterRun(old(View(db)), if stored.None? then RefusedRun(files, n) else StoppedRun(files, n, stored.value), hash)
  {
    if AllQuiet(View(db), files, hash) {
      QuietWalk(View(db), files, hash);
      NoWorkNoCalls(View(db), files, hash);
    }
    r, n, stored := IngestFiles(db, files, hash, embedder, meaning);
    assert files[..|files|] == files;
    if r.Ok? {
      PruneLoop(db, Keys(files), meaning);
    }
  }

  /** So far the run has handled the first `i` files. */
  ghost predicate Handled(start: Index, ix: Index, files: seq<WalkedFile>, i: nat, hash: Hash, stats: Stats, calls: int)
    requires i <= |files|
  {
    && ix == AfterFiles(start, files[..i], hash)
    && stats == Stats(|files|, Work(start, files[..i], hash), Work(start, files[..i], hash))
    && calls == CallsOver(start, files[..i], hash)
  }

  lemma OneMoreHandled(start: Index, ix: Index, jx: Index, files: seq<WalkedFile>, i: nat, hash: Hash,
                       before: Stats, after: Stats, calls: int, more: int)
    requires i < |files| && Handled(start, ix, files, i, hash, before, calls)
    requires Updated(ix, jx, files[i], hash, before, after, more)
    ensures Handled(start, jx, files, i + 1, hash, after, calls + more)
  {
    assert files[..i + 1][..i] == files[..i];
  }

  /** The loop over the files, which completes or stops at file `n`. */
  method IngestFiles(db: RagDatabase.Database, files: seq<WalkedFile>, hash: Hash, embedder: Embedder, ghost meaning: Meaning)
    returns (r: Result<Stats, IngestError>, ghost n: nat, ghost stored: Option<nat>)
    requires db.Valid()
    modifies db, embedder
    ensures db.Valid()
    ensures r.Ok? ==> Handled(old(View(db)), View(db), files, |files|, hash, r.value, embedder.calls - old(embedder.calls))
    ensures r.Err? ==> n < |files| && Stopped(AfterFiles(old(View(db)), files[..n], hash), View(db), files[n], r.error, stored)
    ensures Unhindered(old(View(db)), files, hash, embedder.answer) ==> r.Ok?
    ensures Honest(embedder.answer, meaning) && old(Paired(db, meaning)) ==> Paired(db, meaning)
  {
    ghost var start, calls := View(db), embedder.calls;
    ghost var sound, free := Honest(embedder.answer, meaning) && Paired(db, meaning), Unhindered(start, files, hash, embedder.answer);
    var stats := Stats(|files|, 0, 0);
    for i := 0 to |files|
      invariant db.Valid() && Handled(start, View(db), files, i, hash, stats, embedder.calls - calls)
      invariant sound ==> Paired(db, meaning)
    {
      ghost var ix, made := View(db), embedder.calls - calls;
      if free {
        UnhinderedAt(start, files, hash, embedder.answer, i);
      }
      var one;
      one, stored := IngestFile(db, files[i], hash, embedder, stats, meaning);
      if one.Err? {
        return Err(one.error), i, stored;
      }
      OneMoreHandled(start, ix, View(db), files, i, hash, stats, one.value, made, embedder.calls - calls - made);
      stats := one.value;
    }
    return Ok(stats), 0, None;
  }

  method PruneLoop(db: RagDatabase.Database, keys: set<string>, ghost meaning: Meaning)
    requires db.Valid()
    modifies db
    ensures db.Valid() && View(db) == Prune(old(View(db)), keys)
    ensures old(Paired(db, meaning)) ==> Paired(db, meaning)
  {
    ghost var start := View(db);
    ghost var sound := Paired(db, meaning);
    var paths := db.ListAllFiles();
    ghost var gone: set<string> := {};
    for i := 0 to |paths|
      invariant db.Valid()
      invariant gone == Unseen(paths[..i], keys)
      invariant View(db) == Dropped(start, gone)
      invariant sound ==> Paired(db, meaning)
    {
      var p := paths[i];
      UnseenStep(paths, i, keys);
      if p !in keys {
        DeletePaired(db, p, meaning);
        DropOneMore(start, gone, p);
        gone := gone + {p};
      }
    }
    assert paths[..|paths|] == paths;
    assert gone == start.files.Keys - keys;
  }

  function Unseen(paths: seq<string>, keys: set<string>): set<string> {
    set p | p in paths && p !in keys
  }

  lemma UnseenStep(paths: seq<string>, i: nat, keys: set<string>)
    requires i < |paths|
    ensures Unseen(paths[..i + 1], keys) == Unseen(paths[..i], keys) + if paths[i] in keys then {} else {paths[i]}
  {
    assert paths[..i + 1] == paths[..i] + [paths[i]];
  }

  function Dropped(ix: Index, paths: set<string>): Index {
    Index(ix.files - paths, ix.texts - paths)
  }

  lemma DropOneMore(ix: Index, paths: set<string>, p: string)
    ensures Delete(Dropped(ix, paths), p) == Dropped(ix, paths + {p})
  {
    assert ix.files - paths - {p} == ix.files - (paths + {p});
    assert ix.texts - paths - {p} == ix.texts - (paths + {p});
  }
}
