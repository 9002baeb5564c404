/** Machine words: 64-bit addresses and 32-bit byte counters, with wrap-around. */
module WordArithmetic {
  const TWO_32: int := 0x1_0000_0000
  const TWO_64: int := 0x1_0000_0000_0000_0000
  const UINT_MAX: int := TWO_32 - 1

  type u32 = x: nat | x < TWO_32
  type u64 = x: nat | x < TWO_64

  function Wrap32(x: int): u32 {
    if 0 <= x < TWO_32 then x else x % TWO_32
  }

  function Wrap64(x: int): u64 {
    if 0 <= x < TWO_64 then x else x % TWO_64
  }

  /** Wrapping is reduction modulo 2^64. */
  lemma Wrap64IsModulo(x: int)
    ensures Wrap64(x) == x % TWO_64
  {
  }

  /** Words are 32 and 64 bits wide. */
  lemma WordsWrap(x: int)
    ensures Wrap32(x) == x % 4294967296 && Wrap64(x) == x % 18446744073709551616
    ensures UINT_MAX == 4294967295
  {
  }

  function Min(x: nat, y: nat): nat {
    if x < y then x else y
  }

  function Max(x: nat, y: nat): nat {
    if x < y then y else x
  }

  /** Subtracting after wrapping is the same as wrapping the difference. */
  lemma Wrap32Difference(x: int, y: int)
    ensures Wrap32(Wrap32(x) - y) == Wrap32(x - y)
  {
    var q := x / TWO_32;
    assert x == q * TWO_32 + Wrap32(x);
    ModShift(Wrap32(x) - y, q);
  }

  lemma Wrap32Sum(x: int, y: int)
    ensures Wrap32(Wrap32(x) + y) == Wrap32(x + y)
  {
    Wrap32Difference(x, -y);
  }

  lemma ModShift(x: int, q: int)
    ensures Wrap32(x + q * TWO_32) == Wrap32(x)
  {
    var d := x / TWO_32;
    assert x + q * TWO_32 == (d + q) * TWO_32 + Wrap32(x);
  }
}
