/** Machine numbers, and the subtraction on them that stops at zero. */
module Machine {

  type byte = n: int | 0 <= n < 256

  type bytes = seq<byte>

  const U64_MAX := 0xFFFF_FFFF_FFFF_FFFF

  type u64 = n: int | 0 <= n <= U64_MAX

  function SaturatingSub(a: nat, b: nat): (r: nat)
    ensures r <= a
  {
    if a < b then 0 else a - b
  }
}
