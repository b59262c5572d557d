/** Shifts, powers of two and the bits of a natural number. */
module Bits {

  function Pow2(n: nat): (r: nat)
    ensures r > 0
  {
    if n == 0 then 1 else 2 * Pow2(n - 1)
  }

  /** v << i, before any truncation to a machine word */
  function Shl(v: nat, i: nat): nat
    decreases i
  {
    if i == 0 then v else Shl(2 * v, i - 1)
  }

  /** v >> i */
  function Shr(v: nat, i: nat): nat {
    if i == 0 then v else Shr(v / 2, i - 1)
  }

  function Bit(v: nat, i: nat): nat {
    Shr(v, i) % 2
  }

  lemma {:induction false} Pow2Monotone(a: nat, b: nat)
    requires a <= b
    ensures Pow2(a) <= Pow2(b)
  {
    if a < b {
      Pow2Monotone(a, b - 1);
    }
  }

  lemma WordSizes()
    ensures Pow2(6) == 64 && Pow2(20) == 0x10_0000
    ensures Pow2(31) == 0x8000_0000 && Pow2(32) == 0x1_0000_0000
  {
    assert Pow2(10) == 1024;
    assert Pow2(16) == 0x1_0000;
    assert Pow2(20) == 0x10_0000;
    assert Pow2(24) == 0x100_0000;
    assert Pow2(28) == 0x1000_0000;
  }

  lemma {:induction false} ShlOneIsPow2(i: nat, v: nat, e: nat)
    requires v == Pow2(e)
    ensures Shl(v, i) == Pow2(e + i)
  {
    if i > 0 {
      ShlOneIsPow2(i - 1, 2 * v, e + 1);
    }
  }

  lemma {:induction false} ShlBounds(v: nat, n: nat, i: nat)
    requires Pow2(n) <= v < Pow2(n + 1)
    ensures Pow2(n + i) <= Shl(v, i) < Pow2(n + i + 1)
    decreases i
  {
    if i > 0 {
      ShlBounds(2 * v, n + 1, i - 1);
    }
  }

  lemma {:induction false} ShrAdd(v: nat, i: nat, j: nat)
    ensures Shr(Shr(v, i), j) == Shr(v, i + j)
  {
    if i > 0 {
      ShrAdd(v / 2, i - 1, j);
    }
  }

  /** v & (2^n - 1) */
  function LowBits(v: nat, n: nat): nat {
    if n == 0 then 0 else v % 2 + 2 * LowBits(v / 2, n - 1)
  }

  lemma {:induction false} BitOfLowBits(v: nat, n: nat, j: nat)
    requires j < n
    ensures Bit(LowBits(v, n), j) == Bit(v, j)
  {
    if j > 0 {
      BitOfLowBits(v / 2, n - 1, j - 1);
    }
  }
}
