/** The 32-bit integer operators of JavaScript, on unbounded integers. */
module Int32 {

  const MODULUS := 0x1_0000_0000
  const LIMIT := 0x8000_0000

  function ToInt32(x: int): int {
    var r := x % MODULUS;
    if r < LIMIT then r else r - MODULUS
  }

  function Pow32(k: nat): nat {
    if k == 0 then 1 else 32 * Pow32(k - 1)
  }

  function Pow2(k: nat): (p: nat)
    ensures p > 0
  {
    if k == 0 then 1 else 2 * Pow2(k - 1)
  }

  /** x << k: only the low five bits of the shift count are used. */
  function Shl(x: int, k: nat): int {
    ToInt32(x * Pow2(k % 32))
  }

  /** x >> k. */
  function Sar(x: int, k: nat): int {
    ToInt32(x) / Pow2(k % 32)
  }

  /** Bits 0 to 4, and bit 5. */
  function Low5(x: int): int { ToInt32(x) % 32 }
  predicate Bit5(x: int) { ToInt32(x) / 32 % 2 == 1 }
  predicate Odd(x: int) { ToInt32(x) % 2 == 1 }

  lemma SmallInt32(x: int)
    requires -LIMIT <= x < LIMIT
    ensures ToInt32(x) == x
  {
  }

  /** The value is taken modulo 2^32, into the signed range; so are shift counts modulo 32. */
  lemma Wraps(x: int, k: nat)
    ensures -0x8000_0000 <= ToInt32(x) < 0x8000_0000 && (x - ToInt32(x)) % 0x1_0000_0000 == 0
    ensures Shl(x, k + 32) == Shl(x, k) && Sar(x, k + 32) == Sar(x, k)
    ensures Shl(x, 0) == ToInt32(x) && Shl(x, 1) == ToInt32(2 * x) && Shl(1, 31) == -0x8000_0000
    ensures Sar(x, 0) == ToInt32(x) && Sar(x, 1) == ToInt32(x) / 2 && Sar(-1, 31) == -1
  {
    assert (k + 32) % 32 == k % 32;
    assert Pow2(1) == 2;
    PowersOfTwo();
  }

  lemma PowersOfTwo()
    ensures Pow2(31) == 0x8000_0000
  {
    assert Pow2(8) == 256 by {
      assert Pow2(4) == 16;
    }
    assert Pow2(16) == 0x1_0000 by {
      assert Pow2(12) == 4096;
    }
    assert Pow2(24) == 0x100_0000 by {
      assert Pow2(20) == 0x10_0000;
    }
    assert Pow2(28) == 0x1000_0000;
  }

  lemma Sar5(x: int)
    requires -LIMIT <= x < LIMIT
    ensures Sar(x, 5) == x / 32 && Low5(x) == x % 32
  {
    assert Pow2(5) == 32;
    assert 5 % 32 == 5;
  }

  lemma {:induction false} Pow2Of5(k: nat)
    ensures Pow2(5 * k) == Pow32(k)
  {
    if k > 0 {
      Pow2Of5(k - 1);
      assert Pow2(5 * k) == 2 * Pow2(5 * k - 1);
      assert Pow2(5 * k - 1) == 2 * Pow2(5 * k - 2);
      assert Pow2(5 * k - 2) == 2 * Pow2(5 * k - 3);
      assert Pow2(5 * k - 3) == 2 * Pow2(5 * k - 4);
      assert Pow2(5 * k - 4) == 2 * Pow2(5 * (k - 1));
    }
  }
}
