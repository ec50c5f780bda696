/** UTF-8 text as bytes: the encoding of RFC 3629 and the lossy decoding that the
    stream parser applies to a whole frame. */
module Utf8 {
  import opened Machine
  import opened Sequences

  const REPLACEMENT: char := '\U{FFFD}'

  function EncodeChar(c: char): (b: bytes)
    ensures 1 <= |b| <= 4
  {
    var n := c as int;
    if n < 0x80 then [n]
    else if n < 0x800 then [0xC0 + n / 0x40, Tail(n)]
    else if n < 0x10000 then [0xE0 + n / 0x1000, Tail(n / 0x40), Tail(n)]
    else [0xF0 + n / 0x40000, Tail(n / 0x1000), Tail(n / 0x40), Tail(n)]
  }

  /** A continuation byte carrying the low six bits of `n`. */
  function Tail(n: nat): byte {
    0x80 + n % 0x40
  }

  function Encode(s: string): bytes {
    if s == "" then [] else EncodeChar(s[0]) + Encode(s[1..])
  }

  /** How many continuation bytes a leading byte asks for; 4 marks a byte that leads nothing. */
  function TailsWanted(lead: byte): nat {
    if lead < 0x80 then 0
    else if 0xC2 <= lead < 0xE0 then 1
    else if 0xE0 <= lead < 0xF0 then 2
    else if 0xF0 <= lead < 0xF5 then 3
    else 4
  }

  /** The bytes allowed in second place: this rules out overlong forms, surrogates and
      values above U+10FFFF. */
  predicate SecondAllowed(lead: byte, second: byte) {
    match lead
    case 0xE0 => 0xA0 <= second < 0xC0
    case 0xED => 0x80 <= second < 0xA0
    case 0xF0 => 0x90 <= second < 0xC0
    case 0xF4 => 0x80 <= second < 0x90
    case _ => 0x80 <= second < 0xC0
  }

  /** The number of leading bytes of `b` that form one scalar value, or else the
      longest prefix that could have started one. */
  function SpanLength(b: bytes): (n: nat)
    requires b != []
    ensures 1 <= n <= |b|
  {
    var wanted := TailsWanted(b[0]);
    if wanted == 0 || wanted == 4 || |b| < 2 || !SecondAllowed(b[0], b[1]) then 1
    else if wanted == 1 || |b| < 3 || !(0x80 <= b[2] < 0xC0) then 2
    else if wanted == 2 || |b| < 4 || !(0x80 <= b[3] < 0xC0) then 3
    else 4
  }

  /** The scalar value of a complete span; an incomplete one becomes U+FFFD. */
  function SpanValue(b: bytes): char
    requires b != []
  {
    var n := SpanLength(b);
    if TailsWanted(b[0]) != n - 1 then REPLACEMENT
    else if n == 1 then b[0] as char
    else if n == 2 then SixMore(b[0] - 0xC0, b[1]) as char
    else if n == 3 then SixMore(SixMore(b[0] - 0xE0, b[1]), b[2]) as char
    else SixMore(SixMore(SixMore(b[0] - 0xF0, b[1]), b[2]), b[3]) as char
  }

  /** Six more bits, from a continuation byte. */
  function SixMore(high: int, tail: byte): int {
    high * 0x40 + (tail - 0x80)
  }

  function DecodeLossy(b: bytes): string {
    if b == [] then "" else [SpanValue(b)] + DecodeLossy(b[SpanLength(b)..])
  }

  lemma SixMoreBits(n: nat)
    ensures SixMore(n / 0x40, Tail(n)) == n
  {
  }

  lemma ShiftTwice(n: nat)
    ensures n / 0x1000 == n / 0x40 / 0x40 && n / 0x40000 == n / 0x1000 / 0x40
  {
  }

  lemma SpanOfEncodedChar(c: char, rest: bytes)
    ensures SpanLength(EncodeChar(c) + rest) == |EncodeChar(c)|
    ensures SpanValue(EncodeChar(c) + rest) == c
  {
    var n := c as int;
    var b := EncodeChar(c) + rest;
    ShiftTwice(n);
    SixMoreBits(n);
    SixMoreBits(n / 0x40);
    SixMoreBits(n / 0x1000);
    if n < 0x80 {
    } else if n < 0x800 {
      assert b[0] == 0xC0 + n / 0x40 && b[1] == Tail(n);
    } else if n < 0x10000 {
      assert b[0] == 0xE0 + n / 0x1000 && b[1] == Tail(n / 0x40) && b[2] == Tail(n);
    } else {
      assert b[0] == 0xF0 + n / 0x40000 && b[1] == Tail(n / 0x1000) && b[2] == Tail(n / 0x40) && b[3] == Tail(n);
    }
  }

  /** Nothing is lost on text that was encoded: every string, at every length. */
  lemma {:induction false} DecodeEncode(s: string)
    ensures DecodeLossy(Encode(s)) == s
  {
    if s != "" {
      var head, tail := EncodeChar(s[0]), Encode(s[1..]);
      SpanOfEncodedChar(s[0], tail);
      assert (head + tail)[|head|..] == tail;
      DecodeEncode(s[1..]);
    }
  }

  lemma {:induction false} EncodeConcat(s: string, t: string)
    ensures Encode(s + t) == Encode(s) + Encode(t)
  {
    if s == "" {
      assert s + t == t;
    } else {
      EncodeConcat(s[1..], t);
      SliceOfConcat(s, t, 1);
      ConcatAssociative(EncodeChar(s[0]), Encode(s[1..]), Encode(t));
    }
  }

  /** An ASCII byte appears in an encoding only where its own character does. */
  lemma {:induction false} EncodeKeepsOut(s: string, ascii: byte)
    requires ascii < 0x80 && ascii as char !in s
    ensures ascii !in Encode(s)
  {
    if s != "" {
      EncodeKeepsOut(s[1..], ascii);
      assert s[0] in s && ascii !in EncodeChar(s[0]);
    }
  }
}
