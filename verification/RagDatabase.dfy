/** The index database: chunks, their embeddings, and one row per indexed file. */
module RagDatabase {
  import opened Machine
  import opened VectorBlob
  import opened Wrappers

  // ----- The tables -----

  datatype ChunkRow = ChunkRow(id: nat, path: string, ordinal: nat, text: string)

  datatype EmbeddingRow = EmbeddingRow(dim: nat, blob: bytes)

  /** Content identity, size and modification time of an indexed file. */
  datatype FileRow = FileRow(hash: string, size: nat, mtime: int)

  type Texts = map<string, seq<string>>

  function TextsAt(m: Texts, path: string): seq<string> {
    if path in m then m[path] else []
  }

  /** The texts stored for each path, in the order they were inserted. */
  function TextsOf(rows: seq<ChunkRow>): Texts {
    if rows == [] then map[]
    else
      var r := rows[|rows| - 1];
      var m := TextsOf(rows[..|rows| - 1]);
      m[r.path := TextsAt(m, r.path) + [r.text]]
  }

  /** The rows of every path are numbered 0, 1, ... in insertion order. */
  predicate Dense(rows: seq<ChunkRow>) {
    rows == [] ||
    (var r := rows[|rows| - 1];
     var before := rows[..|rows| - 1];
     Dense(before) && r.ordinal == |TextsAt(TextsOf(before), r.path)|)
  }

  function Without(rows: seq<ChunkRow>, path: string): seq<ChunkRow> {
    if rows == [] then []
    else
      var r := rows[|rows| - 1];
      Without(rows[..|rows| - 1], path) + if r.path == path then [] else [r]
  }

  lemma TextsOfAppend(rows: seq<ChunkRow>, r: ChunkRow)
    ensures TextsOf(rows + [r]) == TextsOf(rows)[r.path := TextsAt(TextsOf(rows), r.path) + [r.text]]
    ensures Dense(rows + [r]) <==> Dense(rows) && r.ordinal == |TextsAt(TextsOf(rows), r.path)|
  {
    assert (rows + [r])[..|rows|] == rows;
  }

  lemma UpdateAndRemove(m: Texts, p: string, q: string, v: seq<string>)
    ensures p == q ==> m[p := v] - {q} == m - {q}
    ensures p != q ==> m[p := v] - {q} == (m - {q})[p := v] && TextsAt(m - {q}, p) == TextsAt(m, p)
  {
  }

  /** Deleting the rows of a path empties that path and touches no other. */
  lemma {:induction false} TextsOfWithout(rows: seq<ChunkRow>, path: string)
    ensures TextsOf(Without(rows, path)) == TextsOf(rows) - {path}
  {
    if rows != [] {
      var r, before := rows[|rows| - 1], rows[..|rows| - 1];
      TextsOfWithout(before, path);
      var m, kept := TextsOf(before), Without(before, path);
      UpdateAndRemove(m, r.path, path, TextsAt(m, r.path) + [r.text]);
      if r.path == path {
        assert kept + [] == kept;
      } else {
        TextsOfAppend(kept, r);
      }
    }
  }

  lemma {:induction false} DenseWithout(rows: seq<ChunkRow>, path: string)
    requires Dense(rows)
    ensures Dense(Without(rows, path))
  {
    if rows != [] {
      var r, before := rows[|rows| - 1], rows[..|rows| - 1];
      DenseWithout(before, path);
      TextsOfWithout(before, path);
      var kept := Without(before, path);
      if r.path == path {
        assert kept + [] == kept;
      } else {
        TextsOfAppend(kept, r);
      }
    }
  }

  lemma {:induction false} WithoutMembers(rows: seq<ChunkRow>, path: string, r: ChunkRow)
    ensures r in Without(rows, path) <==> r in rows && r.path != path
  {
    if rows != [] {
      WithoutMembers(rows[..|rows| - 1], path, r);
      assert rows == rows[..|rows| - 1] + [rows[|rows| - 1]];
    }
  }

  /** A path with n rows holds exactly the ordinals below n. */
  lemma {:induction false} DenseOrdinals(rows: seq<ChunkRow>, path: string, ordinal: nat)
    requires Dense(rows)
    ensures (exists r | r in rows :: r.path == path && r.ordinal == ordinal) <==> ordinal < |TextsAt(TextsOf(rows), path)|
  {
    if rows != [] {
      var last, before := rows[|rows| - 1], rows[..|rows| - 1];
      DenseOrdinals(before, path, ordinal);
      assert forall r :: r in rows <==> r == last || r in before;
    }
  }

  /** No two rows of a dense table have the same path and ordinal. */
  lemma {:induction false} DenseUnique(rows: seq<ChunkRow>, i: nat, j: nat)
    requires Dense(rows) && i < j < |rows|
    ensures rows[i].path != rows[j].path || rows[i].ordinal != rows[j].ordinal
  {
    var before := rows[..|rows| - 1];
    if j < |rows| - 1 {
      DenseUnique(before, i, j);
    } else if rows[i].path == rows[j].path {
      assert before[i] in before;
      DenseOrdinals(before, rows[i].path, rows[i].ordinal);
    }
  }

  function Ids(rows: seq<ChunkRow>): set<nat> {
    set r | r in rows :: r.id
  }

  /** Ids ascend in insertion order, and stay below `bound`. */
  predicate IdsAscend(rows: seq<ChunkRow>, bound: nat) {
    rows == [] || (rows[|rows| - 1].id < bound && IdsAscend(rows[..|rows| - 1], rows[|rows| - 1].id))
  }

  lemma {:induction false} IdsBelow(rows: seq<ChunkRow>, bound: nat)
    requires IdsAscend(rows, bound)
    ensures forall r | r in rows :: r.id < bound
  {
    if rows != [] {
      var last, before := rows[|rows| - 1], rows[..|rows| - 1];
      IdsBelow(before, last.id);
      assert forall r :: r in rows <==> r == last || r in before;
    }
  }

  lemma {:induction false} IdsAscendWithout(rows: seq<ChunkRow>, path: string, bound: nat)
    requires IdsAscend(rows, bound)
    ensures IdsAscend(Without(rows, path), bound)
  {
    if rows != [] {
      var r, before := rows[|rows| - 1], rows[..|rows| - 1];
      IdsAscendWithout(before, path, r.id);
      var kept := Without(before, path);
      if r.path == path {
        assert kept + [] == kept;
        if kept != [] {
          assert kept[|kept| - 1].id < r.id;
        }
      } else {
        assert (kept + [r])[..|kept|] == kept;
      }
    }
  }

  lemma IdsWithout(rows: seq<ChunkRow>, path: string)
    ensures Ids(Without(rows, path)) <= Ids(rows)
  {
    forall r | r in Without(rows, path) ensures r in rows {
      WithoutMembers(rows, path, r);
    }
  }

  /** The entries under these ids. */
  function Only(m: map<nat, EmbeddingRow>, ids: set<nat>): (r: map<nat, EmbeddingRow>)
    ensures r.Keys == m.Keys * ids && forall id | id in r :: r[id] == m[id]
  {
    map id | id in m && id in ids :: m[id]
  }

  datatype DbError = ConstraintViolated

  /** A chunk joined with its vector, as a query reads it. */
  datatype IndexedRow = IndexedRow(path: string, text: string, vec: seq<word>)

  /** `row` is `chunk` with the vector that was stored for it. */
  ghost predicate Joined(row: IndexedRow, chunk: ChunkRow, embeddings: map<nat, EmbeddingRow>) {
    && row.path == chunk.path && row.text == chunk.text
    && chunk.id in embeddings && embeddings[chunk.id] == EmbeddingRow(|row.vec|, ToBlob(row.vec))
  }

  class Database {
    var chunks: seq<ChunkRow>
    var embeddings: map<nat, EmbeddingRow>
    var files: map<string, FileRow>
    var nextId: nat

    constructor ()
      ensures Valid() && chunks == [] && embeddings == map[] && files == map[]
    {
      chunks, embeddings, files, nextId := [], map[], map[], 1;
    }

    /** Ordinals are dense, ids ascend, and every chunk has exactly its embedding. */
    ghost predicate Valid()
      reads this`chunks, this`embeddings, this`nextId
    {
      && Dense(chunks)
      && IdsAscend(chunks, nextId)
      && embeddings.Keys == Ids(chunks)
      && forall id | id in embeddings :: |embeddings[id].blob| == embeddings[id].dim * 4
    }

    method FileIsUnchanged(path: string, row: FileRow) returns (same: bool)
      ensures same <==> path in files && files[path] == row
    {
      if path in files {
        return files[path] == row;
      }
      return false;
    }

    method UpsertFileMeta(path: string, row: FileRow)
      modifies this`files
      ensures files == old(files)[path := row]
    {
      files := files[path := row];
    }

    /** Deleting a chunk deletes its embedding. */
    method DeleteFileAndChunks(path: string)
      requires Valid()
      modifies this`chunks, this`embeddings, this`files
      ensures Valid()
      ensures chunks == Without(old(chunks), path) && files == old(files) - {path}
      ensures TextsOf(chunks) == TextsOf(old(chunks)) - {path}
      ensures forall id | id in embeddings :: id in old(embeddings) && embeddings[id] == old(embeddings)[id]
    {
      TextsOfWithout(chunks, path);
      DenseWithout(chunks, path);
      IdsAscendWithout(chunks, path, nextId);
      IdsWithout(chunks, path);
      chunks := Without(chunks, path);
      embeddings := Only(embeddings, Ids(chunks));
      files := files - {path};
    }

    method InsertChunk(path: string, ordinal: nat, text: string) returns (r: Result<nat, DbError>)
      requires Dense(chunks)
      modifies this`chunks, this`nextId
      ensures r.Err? <==> exists row | row in old(chunks) :: row.path == path && row.ordinal == ordinal
      ensures if r.Ok? then chunks == old(chunks) + [ChunkRow(r.value, path, ordinal, text)] && r.value == old(nextId) && nextId == old(nextId) + 1
              else chunks == old(chunks) && nextId == old(nextId)
    {
      if exists row | row in chunks :: row.path == path && row.ordinal == ordinal {
        return Err(ConstraintViolated);
      }
      var id := nextId;
      chunks := chunks + [ChunkRow(id, path, ordinal, text)];
      nextId := nextId + 1;
      return Ok(id);
    }

    method InsertEmbedding(chunkId: nat, vec: seq<word>) returns (r: Result<(), DbError>)
      modifies this`embeddings
      ensures r.Err? <==> chunkId in old(embeddings) || chunkId !in Ids(chunks)
      ensures embeddings == if r.Ok? then old(embeddings)[chunkId := EmbeddingRow(|vec|, ToBlob(vec))] else old(embeddings)
    {
      if chunkId in embeddings || chunkId !in Ids(chunks) {
        return Err(ConstraintViolated);
      }
      var blob := F32SliceToBlob(vec);
      embeddings := embeddings[chunkId := EmbeddingRow(|vec|, blob)];
      return Ok(());
    }

    /** A chunk and its embedding together, at the next ordinal of its path. */
    method InsertEmbedded(path: string, ordinal: nat, text: string, vec: seq<word>) returns (r: Result<(), DbError>)
      requires Valid() && ordinal == |TextsAt(TextsOf(chunks), path)|
      modifies this`chunks, this`embeddings, this`nextId
      ensures Valid() && r.Ok?
      ensures TextsOf(chunks) == TextsOf(old(chunks))[path := TextsAt(TextsOf(old(chunks)), path) + [text]]
      ensures chunks == old(chunks) + [ChunkRow(old(nextId), path, ordinal, text)]
      ensures embeddings == old(embeddings)[old(nextId) := EmbeddingRow(|vec|, ToBlob(vec))]
    {
      DenseOrdinals(chunks, path, ordinal);
      TextsOfAppend(chunks, ChunkRow(nextId, path, ordinal, text));
      IdsAppend(chunks, ChunkRow(nextId, path, ordinal, text), nextId);
      BlobLength(vec);
      var id := InsertChunk(path, ordinal, text);
      r := InsertEmbedding(id.value, vec);
    }

    /** Joins chunks and embeddings; no chunk is dropped and none is read twice. */
    method LoadAllIndexed() returns (rows: seq<IndexedRow>)
      requires Valid()
      ensures |rows| == |chunks| && forall i | 0 <= i < |rows| :: Joined(rows[i], chunks[i], embeddings)
    {
      rows := [];
      for i := 0 to |chunks|
        invariant |rows| == i && forall j | 0 <= j < i :: Joined(rows[j], chunks[j], embeddings)
      {
        var c := chunks[i];
        assert c in chunks && c.id in Ids(chunks);
        if c.id in embeddings {
          var e := embeddings[c.id];
          VectorRoundTrip(e.blob, e.dim);
          var vec := BlobToF32Vec(e.blob, e.dim);
          if vec.None? {
            continue;
          }
          rows := rows + [IndexedRow(c.path, c.text, vec.value)];
        }
      }
    }

    method ListAllFiles() returns (paths: seq<string>)
      ensures forall p :: p in paths <==> p in files
    {
      var left := files.Keys;
      paths := [];
      while left != {}
        invariant left <= files.Keys
        invariant forall p :: p in paths <==> p in files && p !in left
        decreases left
      {
        var p :| p in left;
        left := left - {p};
        paths := paths + [p];
      }
    }
  }

  lemma IdsAppend(rows: seq<ChunkRow>, r: ChunkRow, bound: nat)
    requires IdsAscend(rows, bound) && r.id == bound
    ensures Ids(rows + [r]) == Ids(rows) + {bound} && bound !in Ids(rows)
    ensures IdsAscend(rows + [r], bound + 1)
  {
    IdsBelow(rows, bound);
    assert (rows + [r])[..|rows|] == rows;
    assert forall x :: x in rows + [r] <==> x in rows || x == r;
  }
}
