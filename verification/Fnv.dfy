/** The FNV-1a hash that requests are keyed by: `stable_hash_bytes`. */
module Fnv {
  import opened Machine

  const TWO_64: nat := 0x1_0000_0000_0000_0000

  const OFFSET_BASIS: u64 := 0xcbf2_9ce4_8422_2325
  const PRIME: u64 := 0x0000_0100_0000_01b3

  /** The inverse of the prime modulo 2^64. */
  const INVERSE: u64 := 0xce96_5057_aff6_957b

  function Pow2(n: nat): nat {
    if n == 0 then 1 else 2 * Pow2(n - 1)
  }

  /** Bitwise exclusive or of two `n`-bit numbers, from the lowest bit up. */
  function Xor(a: nat, b: nat, n: nat): (r: nat)
    ensures r < Pow2(n)
  {
    if n == 0 then 0 else 2 * Xor(a / 2, b / 2, n - 1) + (a + b) % 2
  }

  /** Exclusive or with a byte touches the lowest byte only. */
  function XorLow(h: u64, b: byte): u64 {
    EightBits();
    LowReplaced(h, Xor(h % 256, b, 8));
    h - h % 256 + Xor(h % 256, b, 8)
  }

  lemma LowReplaced(h: u64, x: nat)
    requires x < 256
    ensures 0 <= h - h % 256 + x <= U64_MAX
  {
  }

  lemma EightBits()
    ensures Pow2(8) == 256
  {
    assert Pow2(4) == 16;
  }

  // ----- The exclusive or is one, bit by bit -----

  /** The bit of a number at a place counted from its low end. */
  function Bit(n: nat, i: nat): nat {
    if i == 0 then n % 2 else Bit(n / 2, i - 1)
  }

  lemma {:induction false} XorBits(a: nat, b: nat, n: nat, i: nat)
    requires i < n
    ensures Bit(Xor(a, b, n), i) == (Bit(a, i) + Bit(b, i)) % 2
  {
    var y := Xor(a / 2, b / 2, n - 1);
    Halves(y, (a + b) % 2);
    if i == 0 {
      TwoBits(a, b);
    } else {
      XorBits(a / 2, b / 2, n - 1, i - 1);
    }
  }

  lemma TwoBits(a: nat, b: nat)
    ensures (a % 2 + b % 2) % 2 == (a + b) % 2
  {
  }

  lemma PowNext(n: nat, high: nat)
    requires n > 0
    ensures high * Pow2(n) == 2 * (high * Pow2(n - 1)) && high * Pow2(n - 1) >= 0
  {
  }

  lemma HalfOf(y: nat, x: nat)
    ensures (2 * y + x) / 2 == y + x / 2 && (2 * y + x) % 2 == x % 2
  {
  }

  /** The bits of a number with `n` low bits put behind it. */
  lemma {:induction false} BitsBehind(high: nat, x: nat, n: nat, i: nat)
    requires x < Pow2(n)
    ensures high * Pow2(n) >= 0
    ensures Bit(high * Pow2(n) + x, i) == if i < n then Bit(x, i) else Bit(high, i - n)
    decreases n
  {
    if n > 0 {
      PowNext(n, high);
      HalfOf(high * Pow2(n - 1), x);
      if i > 0 {
        BitsBehind(high, x / 2, n - 1, i - 1);
      }
    }
  }

  lemma {:induction false} NoBits(i: nat)
    ensures Bit(0, i) == 0
  {
    if i > 0 {
      NoBits(i - 1);
    }
  }

  /** Every bit of the result is the exclusive or of the bits there. */
  lemma XorLowBits(h: u64, b: byte, i: nat)
    ensures Bit(XorLow(h, b), i) == (Bit(h, i) + Bit(b, i)) % 2
  {
    EightBits();
    var low, high := h % 256, h / 256;
    BitsBehind(high, low, 8, i);
    BitsBehind(high, Xor(low, b, 8), 8, i);
    if i < 8 {
      XorBits(low, b, 8, i);
    } else {
      BitsBehind(0, b, 8, i);
      NoBits(i - 8);
      BitIsBit(high, i - 8);
    }
  }

  lemma {:induction false} BitIsBit(n: nat, i: nat)
    ensures Bit(n, i) < 2
  {
    if i > 0 {
      BitIsBit(n / 2, i - 1);
    }
  }

  function WrappingMul(a: u64, b: u64): u64 {
    (a * b) % TWO_64
  }

  function Step(h: u64, b: byte): u64 {
    WrappingMul(XorLow(h, b), PRIME)
  }

  function HashFrom(h: u64, message: bytes): u64
    decreases |message|
  {
    if message == [] then h else HashFrom(Step(h, message[0]), message[1..])
  }

  function Hash(message: bytes): u64 {
    HashFrom(OFFSET_BASIS, message)
  }

  method StableHashBytes(message: bytes) returns (hash: u64)
    ensures hash == Hash(message)
  {
    hash := OFFSET_BASIS;
    for i := 0 to |message|
      invariant HashFrom(hash, message[i..]) == Hash(message)
    {
      assert message[i..][1..] == message[i + 1..];
      hash := XorLow(hash, message[i]);
      hash := WrappingMul(hash, PRIME);
    }
  }

  /** The published values of FNV-1a for the empty text and for `a`. */
  lemma PublishedHashes(a: byte)
    requires a == 0x61
    ensures Hash([]) == 0xcbf2_9ce4_8422_2325
    ensures Hash([a]) == 0xaf63_dc4c_8601_ec8c
  {
    SomeXor(a, OFFSET_BASIS % 256);
    OneStep(OFFSET_BASIS, a, 0xcbf2_9ce4_8422_2344);
    SomeProduct(0xcbf2_9ce4_8422_2344);
  }

  lemma OneStep(h: u64, b: byte, next: u64)
    requires next == h - h % 256 + Xor(h % 256, b, 8)
    ensures HashFrom(h, [b]) == WrappingMul(next, PRIME)
  {
    LastStep(h, b);
  }

  lemma SomeProduct(x: u64)
    requires x == 0xcbf2_9ce4_8422_2344
    ensures WrappingMul(x, PRIME) == 0xaf63_dc4c_8601_ec8c
  {
  }

  lemma SomeXor(b: byte, low: nat)
    requires b == 0x61 && low == 0x25
    ensures Xor(low, b, 8) == 0x44
  {
    assert Xor(0x2, 0x6, 4) == 0x4;
  }

  // ----- Each step can be undone -----

  function Unstep(h: u64, b: byte): u64 {
    XorLow(WrappingMul(h, INVERSE), b)
  }

  lemma Halves(y: nat, bit: nat)
    requires bit < 2
    ensures (2 * y + bit) / 2 == y && (2 * y + bit) % 2 == bit
  {
  }

  lemma BitTwice(a: nat, b: nat, y: nat)
    ensures (2 * y + (a + b) % 2 + b) % 2 == a % 2
  {
  }

  lemma SameBit(a: nat, b: nat, c: nat, x: nat, y: nat)
    requires 2 * x + (a + b) % 2 == 2 * y + (a + c) % 2
    ensures x == y && b % 2 == c % 2
  {
    Halves(x, (a + b) % 2);
    Halves(y, (a + c) % 2);
  }

  lemma {:induction false} XorTwice(a: nat, b: nat, n: nat)
    requires a < Pow2(n)
    ensures Xor(Xor(a, b, n), b, n) == a
    decreases n
  {
    if n > 0 {
      var y := Xor(a / 2, b / 2, n - 1);
      Halves(y, (a + b) % 2);
      BitTwice(a, b, y);
      XorTwice(a / 2, b / 2, n - 1);
    }
  }

  lemma ReplaceLow(h: u64, x: nat)
    requires x < 256
    ensures var g := h - h % 256 + x;
            g % 256 == x && g - g % 256 == h - h % 256
  {
  }

  lemma XorLowTwice(h: u64, b: byte)
    ensures XorLow(XorLow(h, b), b) == h
  {
    var low := h % 256;
    EightBits();
    var x := Xor(low, b, 8);
    ReplaceLow(h, x);
    assert Xor(x, b, 8) == low by {
      XorTwice(low, b, 8);
    }
  }

  lemma Congruent(x: u64, k: int)
    ensures (x + k * TWO_64) % TWO_64 == x
  {
  }

  lemma MulInverse(x: u64, a: u64, b: u64, k: nat)
    requires a * b == 1 + k * TWO_64
    ensures WrappingMul(WrappingMul(x, a), b) == x
  {
    var q, r := (x * a) / TWO_64, WrappingMul(x, a);
    assert x * a == q * TWO_64 + r;
    assert r * b == x * a * b - q * TWO_64 * b;
    assert x * a * b == x * (a * b);
    assert x * (a * b) == x + (x * k) * TWO_64;
    assert q * TWO_64 * b == (q * b) * TWO_64;
    assert r * b == x + (x * k - q * b) * TWO_64;
    Congruent(x, x * k - q * b);
  }

  lemma PrimeInverse()
    ensures PRIME * INVERSE == 1 + (PRIME * INVERSE / TWO_64) * TWO_64
    ensures PRIME * INVERSE / TWO_64 >= 0
  {
  }

  /** For every byte, a step is a bijection on the 64-bit words. */
  lemma StepIsBijective(h: u64, b: byte)
    ensures Unstep(Step(h, b), b) == h
    ensures Step(Unstep(h, b), b) == h
  {
    PrimeInverse();
    var k := PRIME * INVERSE / TWO_64;
    MulInverse(XorLow(h, b), PRIME, INVERSE, k);
    XorLowTwice(h, b);
    MulInverse(h, INVERSE, PRIME, k);
    XorLowTwice(WrappingMul(h, INVERSE), b);
  }

  /** From the same state, different bytes lead to different states. */
  lemma StepSeparatesBytes(h: u64, b: byte, c: byte)
    ensures Step(h, b) == Step(h, c) <==> b == c
  {
    if Step(h, b) == Step(h, c) {
      PrimeInverse();
      var k := PRIME * INVERSE / TWO_64;
      MulInverse(XorLow(h, b), PRIME, INVERSE, k);
      MulInverse(XorLow(h, c), PRIME, INVERSE, k);
      EightBits();
      SameXor(h % 256, b, c, 8);
    }
  }

  lemma {:induction false} SameXor(a: nat, b: nat, c: nat, n: nat)
    requires b < Pow2(n) && c < Pow2(n) && Xor(a, b, n) == Xor(a, c, n)
    ensures b == c
    decreases n
  {
    if n > 0 {
      var x, y := Xor(a / 2, b / 2, n - 1), Xor(a / 2, c / 2, n - 1);
      SameBit(a, b, c, x, y);
      SameXor(a / 2, b / 2, c / 2, n - 1);
    }
  }

  lemma {:induction false} SuffixSeparates(h: u64, g: u64, s: bytes)
    ensures HashFrom(h, s) == HashFrom(g, s) <==> h == g
    decreases |s|
  {
    if s != [] {
      SuffixSeparates(Step(h, s[0]), Step(g, s[0]), s[1..]);
      StepIsBijective(h, s[0]);
      StepIsBijective(g, s[0]);
    }
  }

  lemma {:induction false} HashFromConcat(h: u64, p: bytes, s: bytes)
    ensures HashFrom(h, p + s) == HashFrom(HashFrom(h, p), s)
    decreases |p|
  {
    if p == [] {
      assert p + s == s;
    } else {
      assert (p + s)[1..] == p[1..] + s;
      HashFromConcat(Step(h, p[0]), p[1..], s);
    }
  }

  /** A common suffix never changes whether two byte strings collide. */
  lemma CommonSuffix(p: bytes, q: bytes, s: bytes)
    ensures Hash(p + s) == Hash(q + s) <==> Hash(p) == Hash(q)
  {
    HashFromConcat(OFFSET_BASIS, p, s);
    HashFromConcat(OFFSET_BASIS, q, s);
    SuffixSeparates(Hash(p), Hash(q), s);
  }

  /** Byte strings that differ in exactly one place never collide. */
  lemma OneByteChangeNeverCollides(p: bytes, b: byte, c: byte, s: bytes)
    requires b != c
    ensures Hash(p + [b] + s) != Hash(p + [c] + s)
  {
    HashFromConcat(OFFSET_BASIS, p, [b]);
    HashFromConcat(OFFSET_BASIS, p, [c]);
    LastStep(Hash(p), b);
    LastStep(Hash(p), c);
    StepSeparatesBytes(Hash(p), b, c);
    CommonSuffix(p + [b], p + [c], s);
  }

  lemma LastStep(h: u64, b: byte)
    ensures HashFrom(h, [b]) == Step(h, b)
  {
    assert [b][1..] == [];
  }
}
