/** The fixed-width integers of the source, its `as` casts, and bitwise exclusive or on naturals. */
module Ints {

  const U32_LIMIT: int := 0x1_0000_0000
  const I32_LIMIT: int := 0x8000_0000

  type u8 = x: int | 0 <= x < 0x100
  type u32 = x: int | 0 <= x < 0x1_0000_0000
  type i32 = x: int | -0x8000_0000 <= x < 0x8000_0000

  /** `v as u32` on a signed or wider integer: keeps the low 32 bits (two's complement). */
  function AsU32(v: int): (r: u32)
    ensures (r - v) % U32_LIMIT == 0
    ensures 0 <= v < U32_LIMIT ==> r == v
  {
    v % U32_LIMIT
  }

  /** A cast to u32 changes exactly the values outside the u32 range. */
  lemma WrapsExactlyWhenOutside(v: int)
    ensures AsU32(v) == v <==> 0 <= v < U32_LIMIT
  {
  }

  /** `v as i32` on a `u32`: the same 32 bits read as a signed value. */
  function AsI32(v: u32): (r: i32)
    ensures r % U32_LIMIT == v
    ensures v < I32_LIMIT ==> r == v
    ensures v >= I32_LIMIT ==> r < 0
  {
    if v < I32_LIMIT then v else v - U32_LIMIT
  }

  function Min(a: int, b: int): int
  {
    if a <= b then a else b
  }

  function Pow2(k: nat): (r: nat)
    ensures r >= 1
  {
    if k == 0 then 1 else 2 * Pow2(k - 1)
  }

  /** Bitwise exclusive or, bit by bit from the least significant end. */
  function Xor(a: nat, b: nat): nat
    decreases a + b
  {
    if a == 0 && b == 0 then 0
    else 2 * Xor(a / 2, b / 2) + (a % 2 + b % 2) % 2
  }

  /** Setting a bit that is clear: xor with `2^k` adds `2^k` to any value below `2^k`. */
  lemma {:induction false} XorSetsClearBit(a: nat, k: nat)
    requires a < Pow2(k)
    ensures Xor(a, Pow2(k)) == a + Pow2(k)
  {
    if k == 0 {
      assert a == 0;
      assert Xor(0, 1) == 2 * Xor(0, 0) + 1;
    } else {
      XorSetsClearBit(a / 2, k - 1);
    }
  }

  /** Clearing a bit that is set: xor with `2^k` takes `2^k` back off. */
  lemma {:induction false} XorClearsSetBit(a: nat, k: nat)
    requires a < Pow2(k)
    ensures Xor(a + Pow2(k), Pow2(k)) == a
  {
    if k == 0 {
      assert a == 0;
      assert Xor(1, 1) == 2 * Xor(0, 0);
    } else {
      XorClearsSetBit(a / 2, k - 1);
      assert (a + Pow2(k)) / 2 == a / 2 + Pow2(k - 1);
    }
  }
}
