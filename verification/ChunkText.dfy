/** Splitting a file into overlapping windows: `chunk_text`. */
module ChunkText {
  import opened Sequences
  import opened Text

  datatype Window = Window(start: nat, end: nat)

  /** The windows of a text, in order. */
  datatype Windows = Last(first: Window) | More(first: Window, later: Windows) {
    predicate Has(w: Window) {
      w == first || (More? && later.Has(w))
    }
  }

  /** The overlap in use: at most one less than the window size. */
  function Clamped(maxChars: nat, overlap: nat): nat
    requires maxChars > 0
  {
    if overlap <= maxChars - 1 then overlap else maxChars - 1
  }

  /** The windows over `n` characters that start at `from` or later. */
  function WindowsFrom(n: nat, from: nat, maxChars: nat, overlap: nat): (ws: Windows)
    requires from < n && overlap < maxChars
    ensures ws.first == Window(from, if from + maxChars <= n then from + maxChars else n)
    decreases n - from
  {
    if from + maxChars >= n then Last(Window(from, n))
    else More(Window(from, from + maxChars), WindowsFrom(n, from + (maxChars - overlap), maxChars, overlap))
  }

  predicate Within(w: Window, n: nat) {
    w.start <= w.end <= n
  }

  function Piece(text: string, w: Window): string {
    if Within(w, |text|) then text[w.start..w.end] else ""
  }

  /** A piece, if it is not blank. */
  function Kept(piece: string, blank: string -> bool): seq<string> {
    if blank(piece) then [] else [piece]
  }

  /** The pieces of a text, by window. */
  type PieceOf = Window -> string

  function PiecesOf(text: string): PieceOf {
    (w: Window) => Piece(text, w)
  }

  /** The pieces of those windows that are not blank. */
  function Pieces(ws: Windows, pieceOf: PieceOf, blank: string -> bool): seq<string> {
    Kept(pieceOf(ws.first), blank) + if ws.Last? then [] else Pieces(ws.later, pieceOf, blank)
  }

  predicate Blank(s: string) {
    Trim(s) == ""
  }

  function ChunksBy(text: string, maxChars: nat, overlap: nat, blank: string -> bool): seq<string> {
    if maxChars == 0 || text == "" then []
    else Pieces(WindowsFrom(|text|, 0, maxChars, Clamped(maxChars, overlap)), PiecesOf(text), blank)
  }

  function Chunks(text: string, maxChars: nat, overlap: nat): seq<string> {
    ChunksBy(text, maxChars, overlap, Blank)
  }

  method ChunkTextLoop(text: string, maxChars: nat, overlap: nat) returns (out: seq<string>)
    ensures out == Chunks(text, maxChars, overlap)
  {
    if maxChars == 0 {
      return [];
    }
    var overlap := if overlap <= maxChars - 1 then overlap else maxChars - 1;
    out := [];
    if text == "" {
      return;
    }
    out := WindowLoop(|text|, PiecesOf(text), maxChars, overlap, Blank);
  }

  /** The loop over the windows of a text of `n` characters, with the pieces it has there. */
  method WindowLoop(n: nat, pieceOf: PieceOf, maxChars: nat, overlap: nat, blank: string -> bool) returns (out: seq<string>)
    requires n > 0 && overlap < maxChars
    ensures out == Pieces(WindowsFrom(n, 0, maxChars, overlap), pieceOf, blank)
  {
    ghost var all := WindowsFrom(n, 0, maxChars, overlap);
    out := [];
    var start := 0;
    while true
      invariant start < n
      invariant out + Pieces(WindowsFrom(n, start, maxChars, overlap), pieceOf, blank) == Pieces(all, pieceOf, blank)
      decreases n - start
    {
      var end := if start + maxChars <= n then start + maxChars else n;
      PiecesStep(out, WindowsFrom(n, start, maxChars, overlap), pieceOf, blank);
      var piece := pieceOf(Window(start, end));
      if !blank(piece) {
        out := out + [piece];
      }
      if end >= n {
        break;
      }
      var step := if maxChars - overlap >= 1 then maxChars - overlap else 1;
      start := start + step;
    }
  }

  lemma PiecesStep(before: seq<string>, ws: Windows, pieceOf: PieceOf, blank: string -> bool)
    ensures var piece := pieceOf(ws.first);
            var now := if blank(piece) then before else before + [piece];
            before + Pieces(ws, pieceOf, blank) == if ws.Last? then now else now + Pieces(ws.later, pieceOf, blank)
  {
    var kept := Kept(pieceOf(ws.first), blank);
    ConcatAssociative(before, kept, if ws.Last? then [] else Pieces(ws.later, pieceOf, blank));
    assert before + [] == before && kept + [] == kept;
  }

  // ----- The windows cover the text -----

  /** What stays of each window when its overlap with the one before is cut off. */
  function Unseen(text: string, overlap: nat): PieceOf {
    (w: Window) => if overlap <= |Piece(text, w)| then Piece(text, w)[overlap..] else ""
  }

  /** All of that. */
  function Fresh(ws: Windows, unseen: PieceOf): string {
    unseen(ws.first) + if ws.Last? then "" else Fresh(ws.later, unseen)
  }

  /** Pieces that each lead from `rest` at one place to `rest` at another lead all the way. */
  lemma {:induction false} FreshLeads(n: nat, from: nat, maxChars: nat, overlap: nat, unseen: PieceOf, rest: nat -> string)
    requires from + overlap < n && overlap < maxChars && rest(n) == ""
    requires forall w: Window | w.start + overlap <= w.end <= n :: unseen(w) + rest(w.end) == rest(w.start + overlap)
    ensures Fresh(WindowsFrom(n, from, maxChars, overlap), unseen) == rest(from + overlap)
    decreases n - from
  {
    var w := WindowsFrom(n, from, maxChars, overlap).first;
    assert unseen(w) + rest(w.end) == rest(w.start + overlap);
    if from + maxChars < n {
      FreshLeads(n, from + (maxChars - overlap), maxChars, overlap, unseen, rest);
    }
  }

  lemma UnseenLeads(text: string, w: Window, overlap: nat)
    requires w.start + overlap <= w.end <= |text|
    ensures Unseen(text, overlap)(w) + text[w.end..] == text[w.start + overlap..]
  {
  }

  lemma FreshRebuilds(text: string, from: nat, maxChars: nat, overlap: nat)
    requires from + overlap < |text| && overlap < maxChars
    ensures Fresh(WindowsFrom(|text|, from, maxChars, overlap), Unseen(text, overlap)) == text[from + overlap..]
  {
    var rest := (k: nat) => if k <= |text| then text[k..] else "";
    forall w: Window | w.start + overlap <= w.end <= |text|
      ensures Unseen(text, overlap)(w) + rest(w.end) == rest(w.start + overlap)
    {
      UnseenLeads(text, w, overlap);
    }
    FreshLeads(|text|, from, maxChars, overlap, Unseen(text, overlap), rest);
  }

  /** The first window, then every later window without its overlap, is the whole text. */
  lemma WindowsRebuild(text: string, maxChars: nat, overlap: nat)
    requires text != "" && maxChars > 0
    ensures var ov := Clamped(maxChars, overlap);
            var ws := WindowsFrom(|text|, 0, maxChars, ov);
            Piece(text, ws.first) + (if ws.Last? then "" else Fresh(ws.later, Unseen(text, ov))) == text
  {
    var ov := Clamped(maxChars, overlap);
    if maxChars < |text| {
      FreshRebuilds(text, maxChars - ov, maxChars, ov);
      SplitAt(text, maxChars);
    } else {
      assert text[0..|text|] + "" == text;
    }
  }

  /** A window of a text of `n` characters, no longer than asked for. */
  predicate Fitting(w: Window, n: nat, maxChars: nat) {
    Within(w, n) && w.end - w.start <= maxChars
  }

  lemma {:induction false} WindowFits(n: nat, from: nat, maxChars: nat, overlap: nat, w: Window)
    requires from < n && overlap < maxChars && WindowsFrom(n, from, maxChars, overlap).Has(w)
    ensures Fitting(w, n, maxChars)
    decreases n - from
  {
    if from + maxChars < n && w != WindowsFrom(n, from, maxChars, overlap).first {
      WindowFits(n, from + (maxChars - overlap), maxChars, overlap, w);
    }
  }

  lemma {:induction false} WindowAround(n: nat, from: nat, maxChars: nat, overlap: nat, p: nat) returns (w: Window)
    requires from <= p < n && overlap < maxChars
    ensures WindowsFrom(n, from, maxChars, overlap).Has(w) && w.start <= p < w.end
    decreases n - from
  {
    w := WindowsFrom(n, from, maxChars, overlap).first;
    if p >= w.end {
      w := WindowAround(n, from + (maxChars - overlap), maxChars, overlap, p);
    }
  }

  lemma NotBlank(s: string, i: nat)
    requires i < |s| && !IsWhitespace(s[i])
    ensures !Blank(s)
  {
    NotTrimmedAway(s, i, IsWhitespace);
  }

  lemma {:induction false} PieceEmitted(ws: Windows, w: Window, pieceOf: PieceOf, blank: string -> bool)
    requires ws.Has(w) && !blank(pieceOf(w))
    ensures pieceOf(w) in Pieces(ws, pieceOf, blank)
  {
    if w != ws.first {
      PieceEmitted(ws.later, w, pieceOf, blank);
    }
  }

  lemma {:induction false} PiecesAreWindows(ws: Windows, pieceOf: PieceOf, blank: string -> bool, c: string) returns (w: Window)
    requires c in Pieces(ws, pieceOf, blank)
    ensures ws.Has(w) && c == pieceOf(w) && !blank(c)
  {
    if c in Kept(pieceOf(ws.first), blank) {
      w := ws.first;
    } else {
      w := PiecesAreWindows(ws.later, pieceOf, blank, c);
    }
  }

  /** Text with this character in it is never blank. */
  ghost predicate Shows(c: char, blank: string -> bool) {
    forall s: string | c in s :: !blank(s)
  }

  lemma ShownCharacter(c: char)
    requires !IsWhitespace(c)
    ensures Shows(c, Blank)
  {
    forall s: string | c in s ensures !Blank(s) {
      var i :| 0 <= i < |s| && s[i] == c;
      NotBlank(s, i);
    }
  }

  /** Nothing but whitespace is left out: every other position of the text lies in an
      emitted chunk, at its place. */
  lemma ChunksCover(text: string, maxChars: nat, overlap: nat, p: nat) returns (start: nat, chunk: string)
    requires maxChars > 0 && p < |text| && !IsWhitespace(text[p])
    ensures chunk in Chunks(text, maxChars, overlap)
    ensures start <= p < start + |chunk| <= |text| && chunk == text[start..start + |chunk|]
  {
    ShownCharacter(text[p]);
    start, chunk := ChunksCoverBy(text, maxChars, overlap, Blank, p);
  }

  lemma ChunksCoverBy(text: string, maxChars: nat, overlap: nat, blank: string -> bool, p: nat) returns (start: nat, chunk: string)
    requires maxChars > 0 && p < |text| && Shows(text[p], blank)
    ensures chunk in ChunksBy(text, maxChars, overlap, blank)
    ensures start <= p < start + |chunk| <= |text| && chunk == text[start..start + |chunk|]
  {
    var ov := Clamped(maxChars, overlap);
    var w := WindowAround(|text|, 0, maxChars, ov, p);
    WindowFits(|text|, 0, maxChars, ov, w);
    start, chunk := w.start, Piece(text, w);
    assert chunk[p - start] == text[p];
    PieceEmitted(WindowsFrom(|text|, 0, maxChars, ov), w, PiecesOf(text), blank);
  }

  /** An emitted chunk is a piece of the text, not blank, and no longer than asked for. */
  lemma ChunksFit(text: string, maxChars: nat, overlap: nat, chunk: string) returns (start: nat)
    requires chunk in Chunks(text, maxChars, overlap)
    ensures |chunk| <= maxChars && !Blank(chunk)
    ensures start + |chunk| <= |text| && text[start..start + |chunk|] == chunk
  {
    start := ChunksFitBy(text, maxChars, overlap, Blank, chunk);
  }

  lemma ChunksFitBy(text: string, maxChars: nat, overlap: nat, blank: string -> bool, chunk: string) returns (start: nat)
    requires chunk in ChunksBy(text, maxChars, overlap, blank)
    ensures |chunk| <= maxChars && !blank(chunk)
    ensures start + |chunk| <= |text| && text[start..start + |chunk|] == chunk
  {
    var ov := Clamped(maxChars, overlap);
    var w := PiecesAreWindows(WindowsFrom(|text|, 0, maxChars, ov), PiecesOf(text), blank, chunk);
    WindowFits(|text|, 0, maxChars, ov, w);
    start := w.start;
  }
}
