/** What lossy decoding does with bytes that are no text: each maximal part that could have
    begun a character is replaced as one. */
module Utf8Lossy {
  import opened Machine
  import opened Utf8

  /** The bytes start with a whole character. */
  ghost predicate Encoded(b: bytes) {
    exists c :: EncodeChar(c) <= b
  }

  /** Some character begins with these bytes. */
  ghost predicate Begins(p: bytes) {
    exists c :: p <= EncodeChar(c)
  }

  predicate IsTail(b: byte) {
    0x80 <= b < 0xC0
  }

  lemma EncodedBytes(c: char)
    ensures var e := EncodeChar(c);
            && TailsWanted(e[0]) == |e| - 1
            && (|e| > 1 ==> SecondAllowed(e[0], e[1]))
            && (|e| > 2 ==> IsTail(e[2])) && (|e| > 3 ==> IsTail(e[3]))
  {
  }

  lemma TailBack(high: nat, tail: byte)
    requires IsTail(tail)
    ensures SixMore(high, tail) / 0x40 == high && Tail(SixMore(high, tail)) == tail
  {
  }

  lemma TwoBytes(b: bytes)
    requires |b| == 2 && TailsWanted(b[0]) == 1 && IsTail(b[1])
    ensures EncodeChar(SixMore(b[0] - 0xC0, b[1]) as char) == b
  {
    TailBack(b[0] - 0xC0, b[1]);
  }

  lemma ThreeBytes(b: bytes)
    requires |b| == 3 && TailsWanted(b[0]) == 2 && SecondAllowed(b[0], b[1]) && IsTail(b[2])
    ensures EncodeChar(SixMore(SixMore(b[0] - 0xE0, b[1]), b[2]) as char) == b
  {
    var x := SixMore(b[0] - 0xE0, b[1]);
    TailBack(b[0] - 0xE0, b[1]);
    TailBack(x, b[2]);
    assert SixMore(x, b[2]) / 0x1000 == b[0] - 0xE0;
  }

  lemma FourBytes(b: bytes)
    requires |b| == 4 && TailsWanted(b[0]) == 3 && SecondAllowed(b[0], b[1]) && IsTail(b[2]) && IsTail(b[3])
    ensures EncodeChar(SixMore(SixMore(SixMore(b[0] - 0xF0, b[1]), b[2]), b[3]) as char) == b
  {
    var x := SixMore(b[0] - 0xF0, b[1]);
    var y := SixMore(x, b[2]);
    TailBack(b[0] - 0xF0, b[1]);
    TailBack(x, b[2]);
    TailBack(y, b[3]);
    assert SixMore(y, b[3]) / 0x1000 == x && SixMore(y, b[3]) / 0x40000 == b[0] - 0xF0;
  }

  /** A lead byte with all the tails it wants is a character. */
  lemma WholeSpan(b: bytes)
    requires b != [] && TailsWanted(b[0]) == SpanLength(b) - 1
    ensures EncodeChar(SpanValue(b)) == b[..SpanLength(b)]
  {
    var n := SpanLength(b);
    var p := b[..n];
    if n == 2 {
      TwoBytes(p);
    } else if n == 3 {
      ThreeBytes(p);
    } else if n == 4 {
      FourBytes(p);
    }
  }

  lemma WholeIsEncoded(b: bytes)
    requires b != [] && TailsWanted(b[0]) == SpanLength(b) - 1
    ensures Encoded(b)
  {
    WholeSpan(b);
    assert EncodeChar(SpanValue(b)) <= b;
  }

  lemma SpanBegins(b: bytes)
    requires b != [] && SpanLength(b) > 1
    ensures Begins(b[..SpanLength(b)])
  {
    var n, wanted := SpanLength(b), TailsWanted(b[0]);
    var whole := b[..n] + seq(wanted + 1 - n, i => 0x80);
    assert SpanLength(whole) == wanted + 1;
    WholeSpan(whole);
    assert b[..n] <= EncodeChar(SpanValue(whole));
  }

  lemma SpanIsLongest(b: bytes, m: nat)
    requires b != [] && SpanLength(b) < m <= |b|
    ensures !Begins(b[..m])
  {
    forall c ensures !(b[..m] <= EncodeChar(c)) {
      var e := EncodeChar(c);
      EncodedBytes(c);
      if b[..m] <= e {
        assert forall i | 0 <= i < m :: e[i] == b[..m][i] == b[i];
      }
    }
  }

  /** A character in front is read, whatever follows. */
  lemma CharacterRead(c: char, rest: bytes)
    ensures DecodeLossy(EncodeChar(c) + rest) == [c] + DecodeLossy(rest)
  {
    SpanOfEncodedChar(c, rest);
    assert (EncodeChar(c) + rest)[|EncodeChar(c)|..] == rest;
  }

  /** Where no character stands, one replacement is read for the longest part that some
      character begins with, or for one byte. */
  lemma BadBytesReplaced(b: bytes) returns (n: nat)
    requires b != [] && !Encoded(b)
    ensures 1 <= n <= |b| && DecodeLossy(b) == [REPLACEMENT] + DecodeLossy(b[n..])
    ensures n == 1 || Begins(b[..n])
    ensures forall m | n < m <= |b| :: !Begins(b[..m])
  {
    n := SpanLength(b);
    if TailsWanted(b[0]) == n - 1 {
      WholeIsEncoded(b);
    }
    if n > 1 {
      SpanBegins(b);
    }
    forall m | n < m <= |b| ensures !Begins(b[..m]) {
      SpanIsLongest(b, m);
    }
  }
}
