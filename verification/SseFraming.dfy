/** How `SseParser` cuts its byte buffer into frames. */
module SseFraming {
  import opened Machine
  import opened Sequences
  import opened Wrappers

  const LF_LF: bytes := [10, 10]
  const CRLF_CRLF: bytes := [13, 10, 13, 10]

  /** `sep` stands in `b` at position `i`. */
  predicate At(b: bytes, sep: bytes, i: nat) {
    i + |sep| <= |b| && b[i..i + |sep|] == sep
  }

  /** The first place at or after `from` where `sep` stands. */
  function FindFrom(b: bytes, sep: bytes, from: nat): (r: Option<nat>)
    requires from <= |b|
    ensures r.Some? ==> from <= r.value && r.value + |sep| <= |b|
    decreases |b| - from
  {
    if At(b, sep, from) then Some(from)
    else if from == |b| then None
    else FindFrom(b, sep, from + 1)
  }

  function Find(b: bytes, sep: bytes): (r: Option<nat>)
    ensures r.Some? ==> r.value + |sep| <= |b|
  {
    FindFrom(b, sep, 0)
  }

  /** `r` is where `sep` stands first, or None if it stands nowhere. */
  ghost predicate FirstAt(b: bytes, sep: bytes, r: Option<nat>, from: nat) {
    if r.Some? then At(b, sep, r.value) && from <= r.value && forall i: nat | from <= i < r.value :: !At(b, sep, i)
    else forall i: nat | from <= i :: !At(b, sep, i)
  }

  lemma {:induction false} FindFromIsFirst(b: bytes, sep: bytes, from: nat)
    requires from <= |b|
    ensures FirstAt(b, sep, FindFrom(b, sep, from), from)
    decreases |b| - from
  {
    if !At(b, sep, from) && from < |b| {
      FindFromIsFirst(b, sep, from + 1);
    }
  }

  /** `Find` gives the first place of a separator, and nothing else is that place. */
  lemma FindIsFirst(b: bytes, sep: bytes, r: Option<nat>)
    ensures FirstAt(b, sep, r, 0) <==> r == Find(b, sep)
  {
    FindFromIsFirst(b, sep, 0);
    var f := Find(b, sep);
    if FirstAt(b, sep, r, 0) {
      assert r.Some? <==> f.Some?;
      assert r.Some? ==> r.value <= f.value && f.value <= r.value;
    }
  }

  /** The separator in use for this buffer: LF LF wherever it stands, and only without
      one CRLF CRLF. */
  function Separator(b: bytes): (r: Option<(nat, bytes)>)
    ensures r.Some? ==> r.value.0 + |r.value.1| <= |b| && |r.value.1| >= 2
  {
    match Find(b, LF_LF)
    case Some(p) => Some((p, LF_LF))
    case None =>
      match Find(b, CRLF_CRLF)
      case Some(p) => Some((p, CRLF_CRLF))
      case None => None
  }

  /** A separator that was chosen stands where it was found, and not earlier. */
  lemma SeparatorStands(b: bytes)
    requires Separator(b).Some?
    ensures var (p, sep) := Separator(b).value;
            && Find(b, sep) == Some(p) && FirstAt(b, sep, Some(p), 0) && b[p..p + |sep|] == sep
            && (sep == LF_LF || (sep == CRLF_CRLF && Find(b, LF_LF) == None))
  {
    var (p, sep) := Separator(b).value;
    FindIsFirst(b, sep, Some(p));
  }

  /** One extracted frame with the separator that ended it. */
  datatype Cut = Cut(frame: bytes, sep: bytes)

  datatype Drained = Drained(cuts: seq<Cut>, rest: bytes)

  /** Where a buffer is cut next: the end of the frame, and the separator behind it. */
  type Chooser = bytes -> Option<(nat, bytes)>

  predicate Fits(b: bytes, choice: Option<(nat, bytes)>) {
    choice.Some? && choice.value.1 != [] && choice.value.0 + |choice.value.1| <= |b|
  }

  function DrainBy(b: bytes, choose: Chooser): Drained
    decreases |b|
  {
    if !Fits(b, choose(b)) then Drained([], b)
    else
      var (p, sep) := choose(b).value;
      Behind(Cut(b[..p], sep), DrainBy(b[p + |sep|..], choose))
  }

  /** All frames that can be cut off the front of `b`, and what stays in the buffer. */
  function Drain(b: bytes): Drained {
    DrainBy(b, Separator)
  }

  function Behind(cut: Cut, d: Drained): Drained {
    Drained([cut] + d.cuts, d.rest)
  }

  lemma DrainByFirst(b: bytes, choose: Chooser, p: nat, sep: bytes)
    requires choose(b) == Some((p, sep)) && sep != [] && p + |sep| <= |b|
    ensures DrainBy(b, choose) == Behind(Cut(b[..p], sep), DrainBy(b[p + |sep|..], choose))
  {
  }

  lemma DrainFirst(b: bytes, p: nat, sep: bytes)
    requires Separator(b) == Some((p, sep))
    ensures p + |sep| <= |b| && Drain(b) == Behind(Cut(b[..p], sep), Drain(b[p + |sep|..]))
  {
    DrainByFirst(b, Separator, p, sep);
  }

  lemma DrainByDry(b: bytes, choose: Chooser)
    requires choose(b) == None
    ensures DrainBy(b, choose) == Drained([], b)
  {
  }

  lemma DrainDry(b: bytes)
    requires Separator(b) == None
    ensures Drain(b) == Drained([], b)
  {
    DrainByDry(b, Separator);
  }

  /** What feeding the chunks one after another extracts. */
  function DrainChunks(buffer: bytes, chunks: seq<bytes>): Drained
    decreases |chunks|
  {
    if chunks == [] then Drained([], buffer)
    else
      var d := Drain(buffer + chunks[0]);
      var more := DrainChunks(d.rest, chunks[1..]);
      Drained(d.cuts + more.cuts, more.rest)
  }

  function Concat(chunks: seq<bytes>): bytes {
    if chunks == [] then [] else chunks[0] + Concat(chunks[1..])
  }

  /** The bytes that a list of cuts was taken from. */
  function Uncut(cuts: seq<Cut>): bytes {
    if cuts == [] then [] else cuts[0].frame + cuts[0].sep + Uncut(cuts[1..])
  }

  // ----- Conservation -----

  lemma {:induction false} UncutConcat(a: seq<Cut>, b: seq<Cut>)
    ensures Uncut(a + b) == Uncut(a) + Uncut(b)
  {
    if a == [] {
      assert a + b == b;
    } else {
      UncutConcat(a[1..], b);
      UncutHead(a, b);
      ConcatAssociative(a[0].frame + a[0].sep, Uncut(a[1..]), Uncut(b));
    }
  }

  lemma UncutHead(a: seq<Cut>, b: seq<Cut>)
    requires a != []
    ensures Uncut(a + b) == a[0].frame + a[0].sep + Uncut(a[1..] + b)
  {
    assert (a + b)[1..] == a[1..] + b;
  }

  lemma {:induction false} DrainConserves(b: bytes)
    ensures Uncut(Drain(b).cuts) + Drain(b).rest == b
    decreases |b|
  {
    if Separator(b).None? {
      DrainDry(b);
    } else {
      var (p, sep) := Separator(b).value;
      DrainFirst(b, p, sep);
      DrainConserves(b[p + |sep|..]);
      UncutBehind(Cut(b[..p], sep), Drain(b[p + |sep|..]));
      SplitTwice(b, p, p + |sep|);
      SeparatorStands(b);
    }
  }

  lemma UncutBehind(cut: Cut, d: Drained)
    ensures Uncut(Behind(cut, d).cuts) + d.rest == cut.frame + cut.sep + (Uncut(d.cuts) + d.rest)
  {
    assert ([cut] + d.cuts)[1..] == d.cuts;
    ConcatAssociative(cut.frame + cut.sep, Uncut(d.cuts), d.rest);
  }

  /** No byte is lost, invented or moved, however the stream is split. */
  lemma {:induction false} ChunksConserve(buffer: bytes, chunks: seq<bytes>)
    ensures var d := DrainChunks(buffer, chunks);
            Uncut(d.cuts) + d.rest == buffer + Concat(chunks)
    decreases |chunks|
  {
    if chunks == [] {
    } else {
      var d := Drain(buffer + chunks[0]);
      var more := DrainChunks(d.rest, chunks[1..]);
      DrainConserves(buffer + chunks[0]);
      ChunksConserve(d.rest, chunks[1..]);
      UncutConcat(d.cuts, more.cuts);
      ConcatAssociative(Uncut(d.cuts), Uncut(more.cuts), more.rest);
      ConcatAssociative(Uncut(d.cuts), d.rest, Concat(chunks[1..]));
      ConcatAssociative(buffer, chunks[0], Concat(chunks[1..]));
    }
  }

  // ----- Chunk invariance, and exactly when it holds -----

  /** No CRLF CRLF starts before some LF LF does. */
  ghost predicate SeparatorsOrdered(b: bytes) {
    forall i: nat, j: nat :: At(b, CRLF_CRLF, i) && At(b, LF_LF, j) ==> j < i
  }

  lemma AtPrefix(a: bytes, b: bytes, sep: bytes, i: nat)
    requires i + |sep| <= |a|
    ensures At(a, sep, i) <==> At(a + b, sep, i)
  {
    assert (a + b)[i..i + |sep|] == a[i..i + |sep|];
  }

  lemma AtSuffix(b: bytes, k: nat, sep: bytes, i: nat)
    requires k <= |b|
    ensures At(b[k..], sep, i) <==> At(b, sep, k + i)
  {
    if k + i + |sep| <= |b| {
      assert b[k..][i..i + |sep|] == b[k + i..k + i + |sep|];
    }
  }

  lemma OrderedSuffix(b: bytes, k: nat)
    requires k <= |b| && SeparatorsOrdered(b)
    ensures SeparatorsOrdered(b[k..])
  {
    forall i: nat, j: nat | At(b[k..], CRLF_CRLF, i) && At(b[k..], LF_LF, j) ensures j < i {
      AtSuffix(b, k, CRLF_CRLF, i);
      AtSuffix(b, k, LF_LF, j);
    }
  }

  /** A separator chosen for `a` is the one chosen for any ordered extension of `a`. */
  lemma SeparatorExtends(a: bytes, b: bytes)
    requires SeparatorsOrdered(a + b) && Separator(a).Some?
    ensures Separator(a + b) == Separator(a)
  {
    var (p, sep) := Separator(a).value;
    SeparatorStands(a);
    FindExtends(a, b, sep, p);
    if sep == CRLF_CRLF {
      StillNoLfLf(a, b, p);
    }
  }

  lemma FindExtends(a: bytes, b: bytes, sep: bytes, p: nat)
    requires Find(a, sep) == Some(p)
    ensures Find(a + b, sep) == Some(p)
  {
    FindIsFirst(a, sep, Some(p));
    AtPrefix(a, b, sep, p);
    forall i: nat | i < p ensures !At(a + b, sep, i) {
      AtPrefix(a, b, sep, i);
    }
    FindIsFirst(a + b, sep, Some(p));
  }

  lemma StillNoLfLf(a: bytes, b: bytes, p: nat)
    requires SeparatorsOrdered(a + b) && At(a, CRLF_CRLF, p) && Find(a, LF_LF) == None
    ensures Find(a + b, LF_LF) == None
  {
    FindIsFirst(a, LF_LF, None);
    AtPrefix(a, b, CRLF_CRLF, p);
    forall j: nat ensures !At(a + b, LF_LF, j) {
      if At(a + b, LF_LF, j) {
        assert j < p;
        AtPrefix(a, b, LF_LF, j);
      }
    }
    FindIsFirst(a + b, LF_LF, None);
  }

  function DrainTwo(a: bytes, b: bytes): Drained {
    TwoDrained(Drain(a), Drain(Drain(a).rest + b))
  }

  function TwoDrained(d: Drained, e: Drained): Drained {
    Drained(d.cuts + e.cuts, e.rest)
  }

  lemma BehindTwo(cut: Cut, d: Drained, e: Drained)
    ensures TwoDrained(Behind(cut, d), e) == Behind(cut, TwoDrained(d, e))
  {
    ConcatAssociative([cut], d.cuts, e.cuts);
  }

  lemma NothingThenDrained(b: bytes, e: Drained)
    ensures TwoDrained(Drained([], b), e) == e
  {
    assert [] + e.cuts == e.cuts;
  }

  lemma DrainTwoBehind(a: bytes, b: bytes, p: nat, sep: bytes)
    requires Separator(a) == Some((p, sep))
    ensures p + |sep| <= |a| && DrainTwo(a, b) == Behind(Cut(a[..p], sep), DrainTwo(a[p + |sep|..], b))
  {
    DrainFirst(a, p, sep);
    var d := Drain(a[p + |sep|..]);
    BehindTwo(Cut(a[..p], sep), d, Drain(d.rest + b));
  }

  /** A frame cut off first, before or after the extension, is the same frame. */
  lemma DrainExtended(a: bytes, b: bytes, p: nat, sep: bytes)
    requires Separator(a + b) == Some((p, sep)) && p + |sep| <= |a|
    ensures Drain(a + b) == Behind(Cut(a[..p], sep), Drain(a[p + |sep|..] + b))
  {
    DrainFirst(a + b, p, sep);
    SliceOfConcat(a, b, p);
    SliceOfConcat(a, b, p + |sep|);
  }

  /** Two pushes do what one push of both does. */
  lemma {:induction false} DrainSplit(a: bytes, b: bytes)
    requires SeparatorsOrdered(a + b)
    ensures Drain(a + b) == DrainTwo(a, b)
    decreases |a|
  {
    if Separator(a).None? {
      DrainDry(a);
      NothingThenDrained(a, Drain(a + b));
    } else {
      var cut, rest := SplitOnce(a, b);
      DrainSplit(rest, b);
    }
  }

  /** The first frame is the same one, and the rest is a smaller split. */
  lemma SplitOnce(a: bytes, b: bytes) returns (cut: Cut, rest: bytes)
    requires SeparatorsOrdered(a + b) && Separator(a).Some?
    ensures |rest| < |a| && SeparatorsOrdered(rest + b)
    ensures Drain(a + b) == Behind(cut, Drain(rest + b)) && DrainTwo(a, b) == Behind(cut, DrainTwo(rest, b))
  {
    var (p, sep) := Separator(a).value;
    cut, rest := Cut(a[..p], sep), a[p + |sep|..];
    SeparatorExtends(a, b);
    DrainTwoBehind(a, b, p, sep);
    DrainExtended(a, b, p, sep);
    OrderedRest(a, b, p + |sep|);
  }

  lemma OrderedRest(a: bytes, b: bytes, k: nat)
    requires SeparatorsOrdered(a + b) && k <= |a|
    ensures SeparatorsOrdered(a[k..] + b)
  {
    OrderedSuffix(a + b, k);
    SliceOfConcat(a, b, k);
  }

  lemma {:induction false} RestOrdered(a: bytes, b: bytes)
    requires SeparatorsOrdered(a + b)
    ensures SeparatorsOrdered(Drain(a).rest + b)
  {
    DrainConserves(a);
    var k := |Uncut(Drain(a).cuts)|;
    assert a[k..] == Drain(a).rest;
    OrderedRest(a, b, k);
  }

  lemma {:induction false} OrderedChunks(buffer: bytes, chunks: seq<bytes>)
    requires SeparatorsOrdered(buffer + Concat(chunks)) && Drain(buffer) == Drained([], buffer)
    ensures DrainChunks(buffer, chunks) == Drain(buffer + Concat(chunks))
    decreases |chunks|
  {
    if chunks == [] {
      assert buffer + Concat(chunks) == buffer;
    } else {
      var tail := Concat(chunks[1..]);
      assert buffer + Concat(chunks) == (buffer + chunks[0]) + tail;
      DrainSplit(buffer + chunks[0], tail);
      RestOrdered(buffer + chunks[0], tail);
      DrainRestIsDry(buffer + chunks[0]);
      OrderedChunks(Drain(buffer + chunks[0]).rest, chunks[1..]);
    }
  }

  lemma {:induction false} DrainRestIsDry(b: bytes)
    ensures Drain(Drain(b).rest) == Drained([], Drain(b).rest)
    decreases |b|
  {
    if Separator(b).None? {
      DrainDry(b);
    } else {
      var (p, sep) := Separator(b).value;
      DrainFirst(b, p, sep);
      DrainRestIsDry(b[p + |sep|..]);
    }
  }

  lemma TwoChunks(a: bytes, b: bytes)
    ensures DrainChunks([], [a, b]) == DrainTwo(a, b)
  {
    assert [] + a == a;
    var e := Drain(Drain(a).rest + b);
    assert [a, b][1..] == [b] && [b][1..] == [];
    assert DrainChunks(Drain(a).rest, [b]) == Drained(e.cuts + [], e.rest);
    assert e.cuts + [] == e.cuts;
  }

  /** Where the first occurrence lies inside `a`, it is also the first one in `a`. */
  lemma FindInPrefix(a: bytes, b: bytes, sep: bytes, p: nat)
    requires Find(a + b, sep) == Some(p) && p + |sep| <= |a|
    ensures Find(a, sep) == Some(p)
  {
    FindIsFirst(a + b, sep, Some(p));
    AtPrefix(a, b, sep, p);
    forall x: nat | x < p ensures !At(a, sep, x) {
      if x + |sep| <= |a| {
        AtPrefix(a, b, sep, x);
      }
    }
    FindIsFirst(a, sep, Some(p));
  }

  lemma NoLfLfInside(a: bytes, b: bytes, q: nat, p: nat)
    requires |a| == q + 4 && At(a, CRLF_CRLF, q) && Find(a + b, LF_LF) == Some(p) && q < p
    ensures Find(a, LF_LF) == None
  {
    FindIsFirst(a + b, LF_LF, Some(p));
    assert a[q..q + 4][2] == 13;
    forall x: nat ensures !At(a, LF_LF, x) {
      if x + 2 > |a| {
      } else if x < p {
        AtPrefix(a, b, LF_LF, x);
      } else {
        var two := a[x..x + 2];
        assert two[q + 2 - x] == a[q + 2] == 13;
        assert x == q + 1 || x == q + 2;
        assert two[0] == 13 || two[1] == 13;
      }
    }
    FindIsFirst(a, LF_LF, None);
  }

  /** An early CRLF CRLF ends a frame as soon as it has arrived; without the split, the
      later LF LF ends a longer one. */
  lemma EagerCut(a: bytes, b: bytes, p: nat, q: nat)
    requires Find(a + b, LF_LF) == Some(p) && Find(a + b, CRLF_CRLF) == Some(q) && q < p && |a| == q + 4
    ensures Apart(DrainTwo(a, b), Drain(a + b))
  {
    FindInPrefix(a, b, CRLF_CRLF, q);
    FindIsFirst(a, CRLF_CRLF, Some(q));
    NoLfLfInside(a, b, q, p);
    DrainTwoBehind(a, b, q, CRLF_CRLF);
    DrainFirst(a + b, p, LF_LF);
    assert DrainTwo(a, b).cuts[0].frame == a[..q];
    assert Drain(a + b).cuts[0].frame == (a + b)[..p];
  }

  /** At some place both have a frame, and not the same one. */
  ghost predicate Apart(x: Drained, y: Drained) {
    exists k | 0 <= k < |x.cuts| && k < |y.cuts| :: x.cuts[k].frame != y.cuts[k].frame
  }

  lemma ApartBehind(cut: Cut, x: Drained, y: Drained)
    requires Apart(x, y)
    ensures Apart(Behind(cut, x), Behind(cut, y))
  {
    var k: nat :| k < |x.cuts| && k < |y.cuts| && x.cuts[k].frame != y.cuts[k].frame;
    assert Behind(cut, x).cuts[k + 1] == x.cuts[k] && Behind(cut, y).cuts[k + 1] == y.cuts[k];
  }

  /** Behind a leading LF LF the disorder is still there. */
  lemma DisorderBehind(b: bytes, p: nat, q: nat)
    requires !SeparatorsOrdered(b) && Find(b, LF_LF) == Some(p) && Find(b, CRLF_CRLF) == Some(q) && p <= q
    ensures !SeparatorsOrdered(b[p + 2..])
  {
    var i: nat, j: nat :| At(b, CRLF_CRLF, i) && At(b, LF_LF, j) && i <= j;
    FindIsFirst(b, LF_LF, Some(p));
    FindIsFirst(b, CRLF_CRLF, Some(q));
    NoOverlap(b, p, i);
    StillDisordered(b, p + 2, i, j);
  }

  lemma NoOverlap(b: bytes, p: nat, i: nat)
    requires At(b, LF_LF, p) && At(b, CRLF_CRLF, i) && p <= i
    ensures p + 2 <= i
  {
    var two, four := b[p..p + 2], b[i..i + 4];
    assert two[0] == b[p] && two[1] == b[p + 1] && four[0] == b[i];
  }

  lemma StillDisordered(b: bytes, k: nat, i: nat, j: nat)
    requires At(b, CRLF_CRLF, i) && At(b, LF_LF, j) && k <= i <= j
    ensures !SeparatorsOrdered(b[k..])
  {
    AtSuffix(b, k, CRLF_CRLF, i - k);
    AtSuffix(b, k, LF_LF, j - k);
  }

  /** A split behind the first LF LF cuts the same first frame as no split does. */
  lemma SplitBehindFirst(a: bytes, b: bytes, p: nat)
    requires Find(a + b, LF_LF) == Some(p) && p + 2 <= |a|
    requires Apart(DrainTwo(a[p + 2..], b), Drain(a[p + 2..] + b))
    ensures Apart(DrainTwo(a, b), Drain(a + b))
  {
    FindInPrefix(a, b, LF_LF, p);
    DrainTwoBehind(a, b, p, LF_LF);
    DrainExtended(a, b, p, LF_LF);
    ApartBehind(Cut(a[..p], LF_LF), DrainTwo(a[p + 2..], b), Drain(a[p + 2..] + b));
  }

  /** A stream that is not ordered has a split with a frame that differs from the unsplit
      one in its place. */
  lemma {:induction false} DisorderedSplit(s: bytes) returns (a: bytes, b: bytes)
    requires !SeparatorsOrdered(s)
    ensures a + b == s && Apart(DrainTwo(a, b), Drain(s))
    decreases |s|
  {
    FindIsFirst(s, LF_LF, None);
    FindIsFirst(s, CRLF_CRLF, None);
    var p, q := Find(s, LF_LF).value, Find(s, CRLF_CRLF).value;
    if q < p {
      a, b := s[..q + 4], s[q + 4..];
      SplitAt(s, q + 4);
      EagerCut(a, b, p, q);
    } else {
      DisorderBehind(s, p, q);
      var a', b' := DisorderedSplit(s[p + 2..]);
      SplitAt(s, p + 2);
      ConcatAssociative(s[..p + 2], a', b');
      SliceOfConcat(s[..p + 2], a', p + 2);
      a, b := s[..p + 2] + a', b';
      SplitBehindFirst(a, b, p);
    }
  }

  ghost predicate ChunkInvariant(b: bytes) {
    forall chunks | Concat(chunks) == b :: DrainChunks([], chunks) == Drain(b)
  }

  /** Every way of splitting a stream into pushes extracts the same frames and leaves the
      same buffer if and only if no CRLF CRLF starts before an LF LF in it. */
  lemma {:induction false} ChunkInvarianceIff(b: bytes)
    ensures ChunkInvariant(b) <==> SeparatorsOrdered(b)
  {
    if SeparatorsOrdered(b) {
      forall chunks | Concat(chunks) == b ensures DrainChunks([], chunks) == Drain(b) {
        assert [] + Concat(chunks) == b;
        OrderedChunks([], chunks);
      }
    } else {
      var x, y := DisorderedSplit(b);
      TwoChunks(x, y);
      assert [x, y][1..] == [y] && Concat([y]) == y;
      assert Concat([x, y]) == x + y;
    }
  }

  /** Either separator alone is always in order. */
  lemma OneSeparatorOrdered(b: bytes)
    requires Find(b, LF_LF).None? || Find(b, CRLF_CRLF).None?
    ensures SeparatorsOrdered(b) && ChunkInvariant(b)
  {
    FindIsFirst(b, LF_LF, None);
    FindIsFirst(b, CRLF_CRLF, None);
    ChunkInvarianceIff(b);
  }
}
