/** Embedding vectors as the little-endian blobs they are stored as. */
module VectorBlob {
  import opened Machine
  import opened Sequences
  import opened Wrappers

  /** A 32-bit float, by its bits. */
  type word = n: int | 0 <= n < 0x1_0000_0000

  /** A number with one more byte at its low end. */
  function WithByte(high: nat, low: byte): nat {
    high * 0x100 + low
  }

  function WordBytes(w: word): bytes {
    [w % 0x100, w / 0x100 % 0x100, w / 0x100 / 0x100 % 0x100, w / 0x100 / 0x100 / 0x100]
  }

  function BytesWord(b: bytes): word
    requires |b| == 4
  {
    WithByte(WithByte(WithByte(b[3], b[2]), b[1]), b[0])
  }

  function ToBlob(v: seq<word>): bytes {
    if v == [] then [] else WordBytes(v[0]) + ToBlob(v[1..])
  }

  function Words(blob: bytes): seq<word>
    requires |blob| % 4 == 0
  {
    if blob == [] then [] else [BytesWord(blob[..4])] + Words(blob[4..])
  }

  function FromBlob(blob: bytes, dim: nat): Option<seq<word>> {
    if |blob| != dim * 4 then None else Some(Words(blob))
  }

  method F32SliceToBlob(v: seq<word>) returns (b: bytes)
    ensures b == ToBlob(v)
  {
    b := [];
    for i := 0 to |v|
      invariant b + ToBlob(v[i..]) == ToBlob(v)
    {
      assert v[i..][1..] == v[i + 1..];
      ConcatAssociative(b, WordBytes(v[i]), ToBlob(v[i + 1..]));
      b := b + WordBytes(v[i]);
    }
  }

  method BlobToF32Vec(blob: bytes, dim: nat) returns (r: Option<seq<word>>)
    ensures r == FromBlob(blob, dim)
  {
    if |blob| != dim * 4 {
      return None;
    }
    var v: seq<word> := [];
    for i := 0 to dim
      invariant v + Words(blob[4 * i..]) == Words(blob)
    {
      var rest := blob[4 * i..];
      WordsStep(v, blob, i);
      v := v + [BytesWord(rest[..4])];
    }
    assert blob[4 * dim..] == [] && v + [] == v;
    return Some(v);
  }

  lemma WordsStep(v: seq<word>, blob: bytes, i: nat)
    requires |blob| % 4 == 0 && 4 * i + 4 <= |blob|
    ensures var rest := blob[4 * i..];
            v + [BytesWord(rest[..4])] + Words(blob[4 * (i + 1)..]) == v + Words(rest)
  {
    var rest := blob[4 * i..];
    assert rest[4..] == blob[4 * (i + 1)..];
    ConcatAssociative(v, [BytesWord(rest[..4])], Words(rest[4..]));
  }

  lemma {:induction false} BlobLength(v: seq<word>)
    ensures |ToBlob(v)| == 4 * |v|
  {
    if v != [] {
      BlobLength(v[1..]);
    }
  }

  lemma WithByteSplits(high: nat, low: byte)
    ensures WithByte(high, low) / 0x100 == high && WithByte(high, low) % 0x100 == low
  {
  }

  lemma WordRoundTrip(w: word)
    ensures BytesWord(WordBytes(w)) == w
  {
    var x, y, z := w / 0x100, w / 0x100 / 0x100, w / 0x100 / 0x100 / 0x100;
    assert WithByte(z, y % 0x100) == y && WithByte(y, x % 0x100) == x && WithByte(x, w % 0x100) == w;
  }

  lemma BytesRoundTrip(b: bytes)
    requires |b| == 4
    ensures WordBytes(BytesWord(b)) == b
  {
    WithByteSplits(b[3], b[2]);
    WithByteSplits(WithByte(b[3], b[2]), b[1]);
    WithByteSplits(WithByte(WithByte(b[3], b[2]), b[1]), b[0]);
  }

  /** The number with these four bytes, the lowest first. */
  predicate FourBytes(w: word, b0: int, b1: int, b2: int, b3: int) {
    w == b0 + b1 * 0x100 + b2 * 0x1_0000 + b3 * 0x100_0000
  }

  lemma WordIsBytes(w: word)
    ensures var b := WordBytes(w); FourBytes(w, b[0], b[1], b[2], b[3])
  {
  }

  /** The bytes of each float stand at its place, the lowest first. */
  lemma {:induction false} LittleEndian(v: seq<word>, k: nat)
    requires k < |v|
    ensures |ToBlob(v)| == 4 * |v|
    ensures var b := ToBlob(v)[4 * k..];
            |b| >= 4 && FourBytes(v[k], b[0], b[1], b[2], b[3])
  {
    BlobLength(v);
    BlobLength(v[1..]);
    if k == 0 {
      WordIsBytes(v[0]);
    } else {
      LittleEndian(v[1..], k - 1);
      assert ToBlob(v)[4..] == ToBlob(v[1..]);
      assert ToBlob(v)[4 * k..] == ToBlob(v[1..])[4 * (k - 1)..];
    }
  }

  /** A stored vector is read back bit for bit. */
  lemma {:induction false} BlobRoundTrip(v: seq<word>)
    ensures FromBlob(ToBlob(v), |v|) == Some(v)
  {
    BlobLength(v);
    if v != [] {
      BlobRoundTrip(v[1..]);
      BlobLength(v[1..]);
      WordRoundTrip(v[0]);
      assert ToBlob(v)[..4] == WordBytes(v[0]) && ToBlob(v)[4..] == ToBlob(v[1..]);
      assert [v[0]] + v[1..] == v;
    }
  }

  /** A blob is read exactly when its length fits, and then is what its vector is stored as. */
  lemma {:induction false} VectorRoundTrip(blob: bytes, dim: nat)
    ensures FromBlob(blob, dim).Some? <==> |blob| == 4 * dim
    ensures FromBlob(blob, dim).Some? ==> ToBlob(FromBlob(blob, dim).value) == blob && |FromBlob(blob, dim).value| == dim
    decreases dim
  {
    if |blob| == 4 * dim && dim > 0 {
      VectorRoundTrip(blob[4..], dim - 1);
      BytesRoundTrip(blob[..4]);
      HeadTail(BytesWord(blob[..4]), Words(blob[4..]), []);
      SplitAt(blob, 4);
    }
  }
}
