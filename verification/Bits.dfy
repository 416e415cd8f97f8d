/** Bitwise operators on non-negative integers of any width, and the 32-bit
    conversions JavaScript applies to the operands of its bitwise operators. */
module Bits {

  const TWO_32: int := 0x1_0000_0000
  const TWO_31: int := 0x8000_0000
  const TWO_30: int := 0x4000_0000

  function Pow2(k: nat): (p: nat)
    ensures p >= 1
  {
    if k == 0 then 1 else 2 * Pow2(k - 1)
  }

  predicate Odd(a: nat) {
    a % 2 == 1
  }

  function Or(a: nat, b: nat): nat
    decreases a + b
  {
    if a == 0 && b == 0 then 0
    else 2 * Or(a / 2, b / 2) + (if Odd(a) || Odd(b) then 1 else 0)
  }

  function And(a: nat, b: nat): nat
    decreases a + b
  {
    if a == 0 || b == 0 then 0
    else 2 * And(a / 2, b / 2) + (if Odd(a) && Odd(b) then 1 else 0)
  }

  /** The bit of weight 2^k. */
  predicate Bit(a: nat, k: nat) {
    if k == 0 then Odd(a) else Bit(a / 2, k - 1)
  }

  function Shl(a: nat, k: nat): nat {
    if k == 0 then a else 2 * Shl(a, k - 1)
  }

  function Shr(a: nat, k: nat): nat {
    if k == 0 then a else Shr(a / 2, k - 1)
  }

  /** The low k bits. */
  function Low(a: nat, k: nat): nat {
    if k == 0 then 0 else 2 * Low(a / 2, k - 1) + a % 2
  }

  /** `x | 0`: the signed reading of the low 32 bits. */
  function ToInt32(x: int): (r: int)
    ensures -TWO_31 <= r < TWO_31
    ensures -TWO_31 <= x < TWO_31 ==> r == x
  {
    var low := x % TWO_32;
    if low < TWO_31 then low else low - TWO_32
  }

  lemma {:induction false} ZeroBit(k: nat)
    ensures !Bit(0, k)
  {
    if k > 0 {
      ZeroBit(k - 1);
    }
  }

  lemma {:induction false} OrBit(a: nat, b: nat, k: nat)
    ensures Bit(Or(a, b), k) <==> Bit(a, k) || Bit(b, k)
  {
    if a == 0 && b == 0 {
      ZeroBit(k);
    } else if k > 0 {
      OrBit(a / 2, b / 2, k - 1);
    }
  }

  lemma {:induction false} OrZero(a: nat)
    ensures Or(0, a) == a && Or(a, 0) == a
  {
    if a > 0 {
      OrZero(a / 2);
    }
  }

  /** Or-ing in a value shifted past every set bit is addition. */
  lemma {:induction false} OrDisjoint(a: nat, d: nat, s: nat)
    requires a < Pow2(s)
    ensures Or(a, Shl(d, s)) == a + Shl(d, s)
  {
    if s == 0 {
      OrZero(d);
    } else {
      OrDisjoint(a / 2, d, s - 1);
    }
  }

  /** Masking with 2^k - 1 keeps the low k bits. */
  lemma {:induction false} AndMask(a: nat, k: nat)
    ensures And(a, Pow2(k) - 1) == Low(a, k)
  {
    if k > 0 {
      AndMask(a / 2, k - 1);
    }
  }

  lemma {:induction false} SplitLow(a: nat, k: nat)
    ensures a == Low(a, k) + Shl(Shr(a, k), k)
    ensures Low(a, k) < Pow2(k)
  {
    if k > 0 {
      SplitLow(a / 2, k - 1);
    }
  }

  lemma {:induction false} ShlSum(a: nat, b: nat, k: nat)
    ensures Shl(a + b, k) == Shl(a, k) + Shl(b, k)
  {
    if k > 0 {
      ShlSum(a, b, k - 1);
    }
  }

  lemma {:induction false} ShlShl(a: nat, j: nat, k: nat)
    ensures Shl(Shl(a, j), k) == Shl(a, j + k)
  {
    if k > 0 {
      ShlShl(a, j, k - 1);
    }
  }

  lemma {:induction false} ShlMonotone(a: nat, b: nat, k: nat)
    requires a <= b
    ensures Shl(a, k) <= Shl(b, k)
  {
    if k > 0 {
      ShlMonotone(a, b, k - 1);
    }
  }

  lemma {:induction false} ShlOne(k: nat)
    ensures Shl(1, k) == Pow2(k)
    ensures Shl(0, k) == 0
  {
    if k > 0 {
      ShlOne(k - 1);
    }
  }

  lemma ShlWidths(a: nat)
    ensures Shl(a, 1) == 2 * a && Shl(a, 5) == 32 * a && Shl(a, 6) == 64 * a
    ensures Shl(a, 7) == 128 * a && Shl(a, 8) == 256 * a
  {
    assert Shl(a, 1) == 2 * a;
    assert Shl(a, 2) == 4 * a;
    assert Shl(a, 3) == 8 * a;
    assert Shl(a, 4) == 16 * a;
    assert Shl(a, 5) == 32 * a;
    assert Shl(a, 6) == 64 * a;
    assert Shl(a, 7) == 128 * a;
  }

  // The widths the programs use, as division and remainder.

  lemma Width1(a: nat)
    ensures Low(a, 1) == a % 2
  {
    hide *;
    Pow2Values();
    SplitLow(a, 1);
    ShlWidths(Shr(a, 1));
  }

  lemma Width5(a: nat)
    ensures Low(a, 5) == a % 32
  {
    hide *;
    Pow2Values();
    SplitLow(a, 5);
    ShlWidths(Shr(a, 5));
  }

  lemma Width6(a: nat)
    ensures Low(a, 6) == a % 64 && Shr(a, 6) == a / 64
  {
    hide *;
    Pow2Values();
    SplitLow(a, 6);
    ShlWidths(Shr(a, 6));
  }

  lemma Width7(a: nat)
    ensures Low(a, 7) == a % 128
  {
    hide *;
    Pow2Values();
    SplitLow(a, 7);
    ShlWidths(Shr(a, 7));
  }

  lemma Width8(a: nat)
    ensures Low(a, 8) == a % 256 && Shr(a, 8) == a / 256
  {
    hide *;
    Pow2Values();
    SplitLow(a, 8);
    ShlWidths(Shr(a, 8));
  }

  /** Masking with a single bit tests that bit. */
  lemma {:induction false} AndSingle(a: nat, k: nat)
    ensures And(a, Pow2(k)) != 0 <==> Bit(a, k)
  {
    if a == 0 {
      ZeroBit(k);
    } else if k > 0 {
      AndSingle(a / 2, k - 1);
    } else {
      assert And(a / 2, 0) == 0;
    }
  }

  /** The single bit 2^j has bit k set exactly when k is j. */
  lemma {:induction false} Pow2Bit(j: nat, k: nat)
    ensures Bit(Pow2(j), k) <==> j == k
  {
    if j == 0 {
      if k > 0 {
        ZeroBit(k - 1);
      }
    } else if k > 0 {
      Pow2Bit(j - 1, k - 1);
    }
  }

  lemma Pow2Values()
    ensures Pow2(1) == 2 && Pow2(5) == 32 && Pow2(6) == 64 && Pow2(7) == 128 && Pow2(8) == 256
    ensures Pow2(30) == TWO_30 && Pow2(31) == TWO_31 && Pow2(32) == TWO_32
  {
    assert Pow2(5) == 32;
    assert Pow2(10) == 1024;
    assert Pow2(15) == 0x8000;
    assert Pow2(20) == 0x10_0000;
    assert Pow2(25) == 0x200_0000;
  }

  lemma {:induction false} Pow2Monotone(a: nat, b: nat)
    requires a <= b
    ensures Pow2(a) <= Pow2(b)
    decreases b - a
  {
    if a < b {
      Pow2Monotone(a + 1, b);
    }
  }

  lemma {:induction false} ShlBit(a: nat, s: nat, k: nat)
    ensures Bit(Shl(a, s), k) <==> k >= s && Bit(a, k - s)
    decreases s
  {
    if s > 0 {
      var half := Shl(a, s - 1);
      assert 2 * half / 2 == half && !Odd(2 * half);
      if k > 0 {
        ShlBit(a, s - 1, k - 1);
      }
    }
  }

  /** The low n bits of a number are its own, and there are no others. */
  lemma {:induction false} LowBit(a: nat, n: nat, k: nat)
    ensures Bit(Low(a, n), k) <==> k < n && Bit(a, k)
  {
    if n == 0 {
      ZeroBit(k);
    } else {
      var rest := Low(a / 2, n - 1);
      assert (2 * rest + a % 2) / 2 == rest && (2 * rest + a % 2) % 2 == a % 2;
      if k > 0 {
        LowBit(a / 2, n - 1, k - 1);
      }
    }
  }

  /** The low 32 bits are the remainder by 2^32. */
  lemma Width32(a: nat)
    ensures Low(a, 32) == a % TWO_32
  {
    hide Low, Shl, Shr;
    var q := Shr(a, 32);
    SplitLow(a, 32);
    Pow2Values();
    ShlShl(q, 8, 8);
    ShlShl(q, 16, 8);
    ShlShl(q, 24, 8);
    ShlWidths(q);
    ShlWidths(Shl(q, 8));
    ShlWidths(Shl(q, 16));
    ShlWidths(Shl(q, 24));
    assert Shl(q, 32) == TWO_32 * q;
  }
}
