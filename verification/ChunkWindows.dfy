/** Where the windows of `chunk_text` stand, and that its chunks are just their pieces. */
module ChunkWindows {
  import opened ChunkText
  import opened Text
  import opened Trimming

  /** Where the k-th window starts. */
  function StartAt(step: nat, k: nat): (start: nat) {
    ProductNat(k, step);
    k * step
  }

  lemma ProductNat(k: nat, step: nat)
    ensures k * step >= 0
  {
  }

  /** The piece of a text at its k-th window. */
  function PieceAt(n: nat, step: nat, maxChars: nat, pieceOf: PieceOf, k: nat): string {
    var start := StartAt(step, k);
    pieceOf(Window(start, if start + maxChars <= n then start + maxChars else n))
  }

  /** The pieces at the windows from the k-th to before the m-th that are not blank. */
  function Filled(n: nat, step: nat, maxChars: nat, pieceOf: PieceOf, k: nat, m: nat, blank: string -> bool): seq<string>
    decreases m - k
  {
    if k >= m then []
    else
      var piece := PieceAt(n, step, maxChars, pieceOf, k);
      (if blank(piece) then [] else [piece]) + Filled(n, step, maxChars, pieceOf, k + 1, m, blank)
  }

  /** The first `m` windows reach the end, and fewer do not. */
  predicate Reach(n: nat, step: nat, maxChars: nat, m: nat) {
    m > 0 && StartAt(step, m - 1) + maxChars >= n && (m > 1 ==> StartAt(step, m - 2) + maxChars < n)
  }

  lemma NextStart(step: nat, k: nat)
    ensures StartAt(step, k + 1) == StartAt(step, k) + step
  {
  }

  lemma {:induction false} PiecesInOrder(n: nat, step: nat, maxChars: nat, pieceOf: PieceOf, k: nat, blank: string -> bool) returns (m: nat)
    requires 0 < step <= maxChars && StartAt(step, k) < n
    requires k > 0 ==> StartAt(step, k - 1) + maxChars < n
    ensures k < m && Reach(n, step, maxChars, m)
    ensures Pieces(WindowsFrom(n, StartAt(step, k), maxChars, maxChars - step), pieceOf, blank) ==
            Filled(n, step, maxChars, pieceOf, k, m, blank)
    decreases n - StartAt(step, k)
  {
    if StartAt(step, k) + maxChars >= n {
      m := k + 1;
    } else {
      NextStart(step, k);
      m := PiecesInOrder(n, step, maxChars, pieceOf, k + 1, blank);
    }
  }

  /** The chunks of a text are the pieces, in order, of as many windows as it takes to reach
      its end: each `maxChars` long unless cut there, each starting the same step behind the
      one before. The step leaves the overlap asked for, but is at least one. */
  lemma ChunksInOrder(text: string, maxChars: nat, overlap: nat) returns (step: nat, m: nat)
    requires maxChars > 0 && text != ""
    ensures step == (if overlap < maxChars then maxChars - overlap else 1) && Reach(|text|, step, maxChars, m)
    ensures Chunks(text, maxChars, overlap) == Filled(|text|, step, maxChars, PiecesOf(text), 0, m, Blank)
  {
    step := maxChars - Clamped(maxChars, overlap);
    m := PiecesInOrder(|text|, step, maxChars, PiecesOf(text), 0, Blank);
  }

  /** A piece is blank just when it is nothing but whitespace. */
  lemma BlankIff(s: string)
    ensures Blank(s) <==> forall c | c in s :: IsWhitespace(c)
  {
    var a, b := TrimWraps(s, IsWhitespace);
    assert s + "" == s;
    if forall c | c in s :: IsWhitespace(c) {
      TrimStartOf(s, "", IsWhitespace);
    }
  }
}
