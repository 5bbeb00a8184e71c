/** Bitwise operators on natural numbers. */
module Bits {
  import opened Integers

  function Pow2(n: nat): (p: nat)
    ensures p > 0
  {
    if n == 0 then 1 else 2 * Pow2(n - 1)
  }

  /** Exclusive or of the `bits` low-order bits of two numbers. */
  function Xor(bits: nat, a: nat, b: nat): (x: nat)
    ensures x < Pow2(bits)
  {
    if bits == 0 then 0 else 2 * Xor(bits - 1, a / 2, b / 2) + (a % 2 + b % 2) % 2
  }

  lemma {:induction false} XorUndo(bits: nat, a: nat, b: nat)
    requires a < Pow2(bits)
    ensures Xor(bits, Xor(bits, a, b), b) == a
  {
    if bits > 0 {
      XorUndo(bits - 1, a / 2, b / 2);
      var high, low := Xor(bits - 1, a / 2, b / 2), (a % 2 + b % 2) % 2;
      assert Xor(bits, a, b) == 2 * high + low;
      LastBit(high, a % 2, b % 2);
    }
  }

  lemma LastBit(high: nat, a: nat, b: nat)
    requires a < 2 && b < 2
    ensures (2 * high + (a + b) % 2) / 2 == high
    ensures ((2 * high + (a + b) % 2) % 2 + b) % 2 == a
  {
  }

  lemma {:induction false} XorCommutes(bits: nat, a: nat, b: nat)
    ensures Xor(bits, a, b) == Xor(bits, b, a)
  {
    if bits > 0 {
      XorCommutes(bits - 1, a / 2, b / 2);
    }
  }

  lemma XorStep(bits: nat, a: nat, b: nat, high: nat)
    requires bits > 0 && Xor(bits - 1, a / 2, b / 2) == high
    ensures Xor(bits, a, b) == 2 * high + (a % 2 + b % 2) % 2
  {
  }

  lemma {:induction false} XorZero(bits: nat, a: nat)
    requires a < Pow2(bits)
    ensures Xor(bits, a, 0) == a
  {
    if bits > 0 {
      XorZero(bits - 1, a / 2);
    }
  }

  lemma SixtyFourBits()
    ensures Pow2(64) == TWO_64
  {
    ThirtyTwoBits();
    Doubling(32);
  }

  lemma Doubling(n: nat)
    ensures Pow2(n + n) == Pow2(n) * Pow2(n)
  {
    PowSum(n, n);
  }

  lemma {:induction false} PowSum(a: nat, b: nat)
    ensures Pow2(a + b) == Pow2(a) * Pow2(b)
  {
    if b > 0 {
      PowSum(a, b - 1);
      assert Pow2(a + b) == 2 * (Pow2(a) * Pow2(b - 1));
    }
  }

  /** Conjunction of the `bits` low-order bits of two numbers. */
  function And(bits: nat, a: nat, b: nat): (x: nat)
    ensures x < Pow2(bits)
  {
    if bits == 0 then 0 else 2 * And(bits - 1, a / 2, b / 2) + (a % 2) * (b % 2)
  }

  lemma ThirtyTwoBits()
    ensures Pow2(32) == TWO_32
  {
    assert Pow2(2) == 4 && Pow2(4) == 16;
    Doubling(4);
    assert Pow2(8) == 256;
    Doubling(8);
    assert Pow2(16) == 65536;
    Doubling(16);
  }

  // ---------------------------------------------------------------- single bits

  /** Bit `i` of a number, counted from the least significant. */
  function Bit(x: nat, i: nat): (b: nat)
    ensures b <= 1
    decreases i
  {
    if i == 0 then x % 2 else Bit(x / 2, i - 1)
  }

  lemma {:induction false} BitOfXor(bits: nat, a: nat, b: nat, i: nat)
    requires i < bits
    ensures Bit(Xor(bits, a, b), i) == (Bit(a, i) + Bit(b, i)) % 2
  {
    LowBit(Xor(bits - 1, a / 2, b / 2), (a % 2 + b % 2) % 2);
    if i > 0 {
      BitOfXor(bits - 1, a / 2, b / 2, i - 1);
    }
  }

  lemma {:induction false} BitOfAnd(bits: nat, a: nat, b: nat, i: nat)
    requires i < bits
    ensures Bit(And(bits, a, b), i) == Bit(a, i) * Bit(b, i)
  {
    LowBit(And(bits - 1, a / 2, b / 2), (a % 2) * (b % 2));
    if i > 0 {
      BitOfAnd(bits - 1, a / 2, b / 2, i - 1);
    }
  }

  lemma LowBit(high: nat, low: nat)
    requires low < 2
    ensures (2 * high + low) / 2 == high && (2 * high + low) % 2 == low
  {
  }

  lemma {:induction false} BitOfComplement(bits: nat, a: nat, i: nat)
    requires i < bits && a < Pow2(bits)
    ensures Bit(Pow2(bits) - 1 - a, i) == 1 - Bit(a, i)
  {
    LowBit(Pow2(bits - 1) - 1 - a / 2, 1 - a % 2);
    assert Pow2(bits) - 1 - a == 2 * (Pow2(bits - 1) - 1 - a / 2) + (1 - a % 2);
    if i > 0 {
      BitOfComplement(bits - 1, a / 2, i - 1);
    }
  }

  /** Two numbers side by side: `low` fills the first `k` bits, `high` those above. */
  lemma {:induction false} BitOfPair(low: nat, high: nat, k: nat, i: nat)
    requires low < Pow2(k)
    ensures Bit(low + high * Pow2(k), i) == if i < k then Bit(low, i) else Bit(high, i - k)
    decreases k
  {
    if k == 0 {
      assert low + high * Pow2(k) == high;
    } else {
      assert high * Pow2(k) == 2 * (high * Pow2(k - 1));
      LowBit(low / 2 + high * Pow2(k - 1), low % 2);
      assert low + high * Pow2(k) == 2 * (low / 2 + high * Pow2(k - 1)) + low % 2;
      if i > 0 {
        BitOfPair(low / 2, high, k - 1, i - 1);
      }
    }
  }

  /** The bits below `n` are those of the remainder, the others those of the quotient. */
  lemma BitOfParts(x: nat, n: nat, i: nat)
    ensures 0 <= x % Pow2(n) && 0 <= x / Pow2(n)
    ensures Bit(x, i) == if i < n then Bit(x % Pow2(n), i) else Bit(x / Pow2(n), i - n)
  {
    DivMod(x, Pow2(n));
    QuotientNonNegative(x, Pow2(n));
    BitOfPair(x % Pow2(n), x / Pow2(n), n, i);
  }

  lemma QuotientNonNegative(x: nat, d: nat)
    requires d > 0
    ensures 0 <= x / d
  {
    DivMod(x, d);
  }

  /** Numbers of `bits` bits that agree in every bit are equal. */
  lemma {:induction false} BitsDetermine(bits: nat, a: nat, b: nat)
    requires a < Pow2(bits) && b < Pow2(bits)
    requires forall i :: 0 <= i < bits ==> Bit(a, i) == Bit(b, i)
    ensures a == b
  {
    if bits > 0 {
      assert Bit(a, 0) == Bit(b, 0);
      forall i | 0 <= i < bits - 1
        ensures Bit(a / 2, i) == Bit(b / 2, i)
      {
        assert Bit(a, i + 1) == Bit(b, i + 1);
      }
      BitsDetermine(bits - 1, a / 2, b / 2);
    }
  }

  lemma BitOfZero(i: nat)
    ensures Bit(0, i) == 0
    decreases i
  {
    if i > 0 {
      BitOfZero(i - 1);
    }
  }

  lemma {:induction false} HighBitsAreZero(bits: nat, a: nat, i: nat)
    requires a < Pow2(bits) && i >= bits
    ensures Bit(a, i) == 0
  {
    if bits == 0 {
      BitOfZero(i);
    } else {
      HighBitsAreZero(bits - 1, a / 2, i - 1);
    }
  }
}
