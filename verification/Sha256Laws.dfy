/** What the functions and constants of SHA-256 are, bit by bit and root by root, apart from how
    they are computed. */
module Sha256Laws {
  import opened Integers
  import opened Bits
  import opened Sha256

  // ---------------------------------------------------------------- section 4.1.2: functions

  lemma XorLaw(a: Word, b: Word, i: nat)
    requires i < 32
    ensures Bit(Xor32(a, b), i) == (Bit(a, i) + Bit(b, i)) % 2
  {
    BitOfXor(32, a, b, i);
  }

  lemma AndLaw(a: Word, b: Word, i: nat)
    requires i < 32
    ensures Bit(And32(a, b), i) == Bit(a, i) * Bit(b, i)
  {
    BitOfAnd(32, a, b, i);
  }

  lemma NotLaw(a: Word, i: nat)
    requires i < 32
    ensures Bit(Not32(a), i) == 1 - Bit(a, i)
  {
    ThirtyTwoBits();
    BitOfComplement(32, a, i);
  }

  /** `Choose` takes each bit from `y` where `x` has a one, and from `z` where it has a zero. */
  lemma ChooseLaw(x: Word, y: Word, z: Word, i: nat)
    requires i < 32
    ensures Bit(Choose(x, y, z), i) == if Bit(x, i) == 1 then Bit(y, i) else Bit(z, i)
  {
    hide Xor32, And32, Not32, Bit;
    AndLaw(x, y, i);
    NotLaw(x, i);
    AndLaw(Not32(x), z, i);
    XorLaw(And32(x, y), And32(Not32(x), z), i);
  }

  /** `Majority` has a one exactly where at least two of its arguments have one. */
  lemma MajorityLaw(x: Word, y: Word, z: Word, i: nat)
    requires i < 32
    ensures Bit(Majority(x, y, z), i) == if Bit(x, i) + Bit(y, i) + Bit(z, i) >= 2 then 1 else 0
  {
    hide Xor32, And32, Bit;
    AndLaw(x, y, i);
    AndLaw(x, z, i);
    AndLaw(y, z, i);
    XorLaw(And32(x, y), And32(x, z), i);
    XorLaw(Xor32(And32(x, y), And32(x, z)), And32(y, z), i);
    assert Bit(x, i) <= 1 && Bit(y, i) <= 1 && Bit(z, i) <= 1;
  }

  lemma ShiftLaw(x: Word, n: nat, i: nat)
    requires i < 32
    ensures Bit(ShiftRight(x, n), i) == if i + n < 32 then Bit(x, i + n) else 0
  {
    hide Bit;
    BitOfParts(x, n, i + n);
    if i + n >= 32 {
      ThirtyTwoBits();
      HighBitsAreZero(32, x, i + n);
    }
  }

  /** Rotation moves bit i + n to position i, modulo 32. */
  lemma RotateLaw(x: Word, n: nat, i: nat)
    requires n < 32 && i < 32
    ensures Bit(RotateRight(x, n), i) == Bit(x, (i + n) % 32)
  {
    hide Bit, Pow2;
    var low, high := x / Pow2(n), x % Pow2(n);
    RotationFits(x, n);
    BitOfPair(low, high, 32 - n, i);
    if i < 32 - n {
      BitOfParts(x, n, i + n);
    } else {
      BitOfParts(x, n, i + n - 32);
    }
  }

  lemma RotationFits(x: Word, n: nat)
    requires n < 32
    ensures 0 <= x / Pow2(n) < Pow2(32 - n) && 0 <= x % Pow2(n) < Pow2(n)
    ensures RotateRight(x, n) == x / Pow2(n) + x % Pow2(n) * Pow2(32 - n)
  {
    hide Pow2;
    var p, q, d, m := Pow2(n), Pow2(32 - n), x / Pow2(n), x % Pow2(n);
    ThirtyTwoBits();
    PowSum(32 - n, n);
    DivMod(x, p);
    QuotientNonNegative(x, p);
    if d >= q {
      ProductGrows(q, d, p);
    }
    ProductGrows(m + 1, p, q);
    assert (m + 1) * q == m * q + q && p * q == q * p;
    assert 0 <= m * q;
  }

  lemma ProductGrows(a: nat, b: nat, c: nat)
    requires a <= b
    ensures a * c <= b * c
  {
  }

  /** The sum modulo two of three bits of a word. */
  function Parity(x: Word, i: nat, j: nat, k: nat): nat {
    (Bit(x, i) + Bit(x, j) + Bit(x, k)) % 2
  }

  lemma XorOfThree(a: Word, b: Word, c: Word, i: nat)
    requires i < 32
    ensures Bit(Xor32(Xor32(a, b), c), i) == (Bit(a, i) + Bit(b, i) + Bit(c, i)) % 2
  {
    hide Xor32, Bit;
    XorLaw(a, b, i);
    XorLaw(Xor32(a, b), c, i);
  }

  lemma LargeSigmaLaws(x: Word, i: nat)
    requires i < 32
    ensures Bit(LargeSigmaZero(x), i) == Parity(x, (i + 2) % 32, (i + 13) % 32, (i + 22) % 32)
    ensures Bit(LargeSigmaOne(x), i) == Parity(x, (i + 6) % 32, (i + 11) % 32, (i + 25) % 32)
  {
    hide Xor32, RotateRight, Bit;
    RotateLaw(x, 2, i); RotateLaw(x, 13, i); RotateLaw(x, 22, i);
    RotateLaw(x, 6, i); RotateLaw(x, 11, i); RotateLaw(x, 25, i);
    XorOfThree(RotateRight(x, 2), RotateRight(x, 13), RotateRight(x, 22), i);
    XorOfThree(RotateRight(x, 6), RotateRight(x, 11), RotateRight(x, 25), i);
  }

  /** In the small sigmas the third bit is shifted in, as zero from beyond the word. */
  lemma SmallSigmaLaws(x: Word, i: nat)
    requires i < 32
    ensures Bit(SmallSigmaZero(x), i) ==
      (Bit(x, (i + 7) % 32) + Bit(x, (i + 18) % 32) + if i + 3 < 32 then Bit(x, i + 3) else 0) % 2
    ensures Bit(SmallSigmaOne(x), i) ==
      (Bit(x, (i + 17) % 32) + Bit(x, (i + 19) % 32) + if i + 10 < 32 then Bit(x, i + 10) else 0) % 2
  {
    hide Xor32, RotateRight, ShiftRight, Bit;
    RotateLaw(x, 7, i); RotateLaw(x, 18, i); ShiftLaw(x, 3, i);
    RotateLaw(x, 17, i); RotateLaw(x, 19, i); ShiftLaw(x, 10, i);
    XorOfThree(RotateRight(x, 7), RotateRight(x, 18), ShiftRight(x, 3), i);
    XorOfThree(RotateRight(x, 17), RotateRight(x, 19), ShiftRight(x, 10), i);
  }

  /** A word is determined by its bits, so the laws above fix the functions. */
  lemma WordsAreTheirBits(a: Word, b: Word)
    requires forall i :: 0 <= i < 32 ==> Bit(a, i) == Bit(b, i)
    ensures a == b
  {
    ThirtyTwoBits();
    BitsDetermine(32, a, b);
  }

  // ---------------------------------------------------------------- sections 4.2.2 and 5.3.3: constants

  predicate IsPrime(n: nat) {
    n >= 2 && forall d :: 2 <= d < n ==> n % d != 0
  }

  const PRIMES: seq<seq<nat>> := [
    [2, 3, 5, 7, 11, 13, 17, 19],
    [23, 29, 31, 37, 41, 43, 47, 53],
    [59, 61, 67, 71, 73, 79, 83, 89],
    [97, 101, 103, 107, 109, 113, 127, 131],
    [137, 139, 149, 151, 157, 163, 167, 173],
    [179, 181, 191, 193, 197, 199, 211, 223],
    [227, 229, 233, 239, 241, 251, 257, 263],
    [269, 271, 277, 281, 283, 293, 307, 311]
  ]

  function Prime(t: nat): nat
    requires t < 64
  {
    PRIMES[t / 8][t % 8]
  }

  /** `r` is the cube root of `p`, scaled by 2^32 and rounded down. */
  predicate IsScaledCubeRoot(p: nat, r: nat) {
    r * r * r <= p * 0x1_0000_0000_0000_0000_0000_0000 < (r + 1) * (r + 1) * (r + 1)
  }

  /** `r` is the square root of `p`, scaled by 2^32 and rounded down. */
  predicate IsScaledSquareRoot(p: nat, r: nat) {
    r * r <= p * 0x1_0000_0000_0000_0000 < (r + 1) * (r + 1)
  }

  /** `k` is the fractional part of the cube root of `p`, to 32 bits. */
  ghost predicate IsCubeRootFraction(p: nat, k: Word) {
    exists r: nat :: IsScaledCubeRoot(p, r) && k == r % TWO_32
  }

  ghost predicate IsSquareRootFraction(p: nat, k: Word) {
    exists r: nat :: IsScaledSquareRoot(p, r) && k == r % TWO_32
  }

  lemma CubeRootFraction(p: nat, r: nat)
    requires IsScaledCubeRoot(p, r)
    ensures IsCubeRootFraction(p, r % TWO_32)
  {
  }

  lemma SquareRootFraction(p: nat, r: nat)
    requires IsScaledSquareRoot(p, r)
    ensures IsSquareRootFraction(p, r % TWO_32)
  {
  }

  lemma CubeRoots0()
    ensures IsCubeRootFraction(2, 0x428a2f98)
    ensures IsCubeRootFraction(3, 0x71374491)
    ensures IsCubeRootFraction(5, 0xb5c0fbcf)
    ensures IsCubeRootFraction(7, 0xe9b5dba5)
    ensures IsCubeRootFraction(11, 0x3956c25b)
    ensures IsCubeRootFraction(13, 0x59f111f1)
    ensures IsCubeRootFraction(17, 0x923f82a4)
    ensures IsCubeRootFraction(19, 0xab1c5ed5)
  {
    hide IsCubeRootFraction;
    CubeRootFraction(2, 0x1_428a_2f98);
    CubeRootFraction(3, 0x1_7137_4491);
    CubeRootFraction(5, 0x1_b5c0_fbcf);
    CubeRootFraction(7, 0x1_e9b5_dba5);
    CubeRootFraction(11, 0x2_3956_c25b);
    CubeRootFraction(13, 0x2_59f1_11f1);
    CubeRootFraction(17, 0x2_923f_82a4);
    CubeRootFraction(19, 0x2_ab1c_5ed5);
  }

  lemma CubeRoots1()
    ensures IsCubeRootFraction(23, 0xd807aa98)
    ensures IsCubeRootFraction(29, 0x12835b01)
    ensures IsCubeRootFraction(31, 0x243185be)
    ensures IsCubeRootFraction(37, 0x550c7dc3)
    ensures IsCubeRootFraction(41, 0x72be5d74)
    ensures IsCubeRootFraction(43, 0x80deb1fe)
    ensures IsCubeRootFraction(47, 0x9bdc06a7)
    ensures IsCubeRootFraction(53, 0xc19bf174)
  {
    hide IsCubeRootFraction;
    CubeRootFraction(23, 0x2_d807_aa98);
    CubeRootFraction(29, 0x3_1283_5b01);
    CubeRootFraction(31, 0x3_2431_85be);
    CubeRootFraction(37, 0x3_550c_7dc3);
    CubeRootFraction(41, 0x3_72be_5d74);
    CubeRootFraction(43, 0x3_80de_b1fe);
    CubeRootFraction(47, 0x3_9bdc_06a7);
    CubeRootFraction(53, 0x3_c19b_f174);
  }

  lemma CubeRoots2()
    ensures IsCubeRootFraction(59, 0xe49b69c1)
    ensures IsCubeRootFraction(61, 0xefbe4786)
    ensures IsCubeRootFraction(67, 0x0fc19dc6)
    ensures IsCubeRootFraction(71, 0x240ca1cc)
    ensures IsCubeRootFraction(73, 0x2de92c6f)
    ensures IsCubeRootFraction(79, 0x4a7484aa)
    ensures IsCubeRootFraction(83, 0x5cb0a9dc)
    ensures IsCubeRootFraction(89, 0x76f988da)
  {
    hide IsCubeRootFraction;
    CubeRootFraction(59, 0x3_e49b_69c1);
    CubeRootFraction(61, 0x3_efbe_4786);
    CubeRootFraction(67, 0x4_0fc1_9dc6);
    CubeRootFraction(71, 0x4_240c_a1cc);
    CubeRootFraction(73, 0x4_2de9_2c6f);
    CubeRootFraction(79, 0x4_4a74_84aa);
    CubeRootFraction(83, 0x4_5cb0_a9dc);
    CubeRootFraction(89, 0x4_76f9_88da);
  }

  lemma CubeRoots3()
    ensures IsCubeRootFraction(97, 0x983e5152)
    ensures IsCubeRootFraction(101, 0xa831c66d)
    ensures IsCubeRootFraction(103, 0xb00327c8)
    ensures IsCubeRootFraction(107, 0xbf597fc7)
    ensures IsCubeRootFraction(109, 0xc6e00bf3)
    ensures IsCubeRootFraction(113, 0xd5a79147)
    ensures IsCubeRootFraction(127, 0x06ca6351)
    ensures IsCubeRootFraction(131, 0x14292967)
  {
    hide IsCubeRootFraction;
    CubeRootFraction(97, 0x4_983e_5152);
    CubeRootFraction(101, 0x4_a831_c66d);
    CubeRootFraction(103, 0x4_b003_27c8);
    CubeRootFraction(107, 0x4_bf59_7fc7);
    CubeRootFraction(109, 0x4_c6e0_0bf3);
    CubeRootFraction(113, 0x4_d5a7_9147);
    CubeRootFraction(127, 0x5_06ca_6351);
    CubeRootFraction(131, 0x5_1429_2967);
  }

  lemma CubeRoots4()
    ensures IsCubeRootFraction(137, 0x27b70a85)
    ensures IsCubeRootFraction(139, 0x2e1b2138)
    ensures IsCubeRootFraction(149, 0x4d2c6dfc)
    ensures IsCubeRootFraction(151, 0x53380d13)
    ensures IsCubeRootFraction(157, 0x650a7354)
    ensures IsCubeRootFraction(163, 0x766a0abb)
    ensures IsCubeRootFraction(167, 0x81c2c92e)
    ensures IsCubeRootFraction(173, 0x92722c85)
  {
    hide IsCubeRootFraction;
    CubeRootFraction(137, 0x5_27b7_0a85);
    CubeRootFraction(139, 0x5_2e1b_2138);
    CubeRootFraction(149, 0x5_4d2c_6dfc);
    CubeRootFraction(151, 0x5_5338_0d13);
    CubeRootFraction(157, 0x5_650a_7354);
    CubeRootFraction(163, 0x5_766a_0abb);
    CubeRootFraction(167, 0x5_81c2_c92e);
    CubeRootFraction(173, 0x5_9272_2c85);
  }

  lemma CubeRoots5()
    ensures IsCubeRootFraction(179, 0xa2bfe8a1)
    ensures IsCubeRootFraction(181, 0xa81a664b)
    ensures IsCubeRootFraction(191, 0xc24b8b70)
    ensures IsCubeRootFraction(193, 0xc76c51a3)
    ensures IsCubeRootFraction(197, 0xd192e819)
    ensures IsCubeRootFraction(199, 0xd6990624)
    ensures IsCubeRootFraction(211, 0xf40e3585)
    ensures IsCubeRootFraction(223, 0x106aa070)
  {
    hide IsCubeRootFraction;
    CubeRootFraction(179, 0x5_a2bf_e8a1);
    CubeRootFraction(181, 0x5_a81a_664b);
    CubeRootFraction(191, 0x5_c24b_8b70);
    CubeRootFraction(193, 0x5_c76c_51a3);
    CubeRootFraction(197, 0x5_d192_e819);
    CubeRootFraction(199, 0x5_d699_0624);
    CubeRootFraction(211, 0x5_f40e_3585);
    CubeRootFraction(223, 0x6_106a_a070);
  }

  lemma CubeRoots6()
    ensures IsCubeRootFraction(227, 0x19a4c116)
    ensures IsCubeRootFraction(229, 0x1e376c08)
    ensures IsCubeRootFraction(233, 0x2748774c)
    ensures IsCubeRootFraction(239, 0x34b0bcb5)
    ensures IsCubeRootFraction(241, 0x391c0cb3)
    ensures IsCubeRootFraction(251, 0x4ed8aa4a)
    ensures IsCubeRootFraction(257, 0x5b9cca4f)
    ensures IsCubeRootFraction(263, 0x682e6ff3)
  {
    hide IsCubeRootFraction;
    CubeRootFraction(227, 0x6_19a4_c116);
    CubeRootFraction(229, 0x6_1e37_6c08);
    CubeRootFraction(233, 0x6_2748_774c);
    CubeRootFraction(239, 0x6_34b0_bcb5);
    CubeRootFraction(241, 0x6_391c_0cb3);
    CubeRootFraction(251, 0x6_4ed8_aa4a);
    CubeRootFraction(257, 0x6_5b9c_ca4f);
    CubeRootFraction(263, 0x6_682e_6ff3);
  }

  lemma CubeRoots7()
    ensures IsCubeRootFraction(269, 0x748f82ee)
    ensures IsCubeRootFraction(271, 0x78a5636f)
    ensures IsCubeRootFraction(277, 0x84c87814)
    ensures IsCubeRootFraction(281, 0x8cc70208)
    ensures IsCubeRootFraction(283, 0x90befffa)
    ensures IsCubeRootFraction(293, 0xa4506ceb)
    ensures IsCubeRootFraction(307, 0xbef9a3f7)
    ensures IsCubeRootFraction(311, 0xc67178f2)
  {
    hide IsCubeRootFraction;
    CubeRootFraction(269, 0x6_748f_82ee);
    CubeRootFraction(271, 0x6_78a5_636f);
    CubeRootFraction(277, 0x6_84c8_7814);
    CubeRootFraction(281, 0x6_8cc7_0208);
    CubeRootFraction(283, 0x6_90be_fffa);
    CubeRootFraction(293, 0x6_a450_6ceb);
    CubeRootFraction(307, 0x6_bef9_a3f7);
    CubeRootFraction(311, 0x6_c671_78f2);
  }

  lemma ConstantRow0(t: nat)
    requires 0 <= t < 8
    ensures IsCubeRootFraction(Prime(t), RoundConstant(t))
  {
    hide IsCubeRootFraction;
    CubeRoots0();
  }

  lemma ConstantRow1(t: nat)
    requires 8 <= t < 16
    ensures IsCubeRootFraction(Prime(t), RoundConstant(t))
  {
    hide IsCubeRootFraction;
    CubeRoots1();
  }

  lemma ConstantRow2(t: nat)
    requires 16 <= t < 24
    ensures IsCubeRootFraction(Prime(t), RoundConstant(t))
  {
    hide IsCubeRootFraction;
    CubeRoots2();
  }

  lemma ConstantRow3(t: nat)
    requires 24 <= t < 32
    ensures IsCubeRootFraction(Prime(t), RoundConstant(t))
  {
    hide IsCubeRootFraction;
    CubeRoots3();
  }

  lemma ConstantRow4(t: nat)
    requires 32 <= t < 40
    ensures IsCubeRootFraction(Prime(t), RoundConstant(t))
  {
    hide IsCubeRootFraction;
    CubeRoots4();
  }

  lemma ConstantRow5(t: nat)
    requires 40 <= t < 48
    ensures IsCubeRootFraction(Prime(t), RoundConstant(t))
  {
    hide IsCubeRootFraction;
    CubeRoots5();
  }

  lemma ConstantRow6(t: nat)
    requires 48 <= t < 56
    ensures IsCubeRootFraction(Prime(t), RoundConstant(t))
  {
    hide IsCubeRootFraction;
    CubeRoots6();
  }

  lemma ConstantRow7(t: nat)
    requires 56 <= t < 64
    ensures IsCubeRootFraction(Prime(t), RoundConstant(t))
  {
    hide IsCubeRootFraction;
    CubeRoots7();
  }

  /** Section 4.2.2: the constants are the fractional parts of the cube roots of the first primes. */
  lemma RoundConstantLaw(t: nat)
    requires t < 64
    ensures IsCubeRootFraction(Prime(t), RoundConstant(t))
  {
    hide IsCubeRootFraction, Prime, RoundConstant;
    if t < 8 { ConstantRow0(t); }
    else if t < 16 { ConstantRow1(t); }
    else if t < 24 { ConstantRow2(t); }
    else if t < 32 { ConstantRow3(t); }
    else if t < 40 { ConstantRow4(t); }
    else if t < 48 { ConstantRow5(t); }
    else if t < 56 { ConstantRow6(t); }
    else { ConstantRow7(t); }
  }

  lemma SquareRoots()
    ensures IsSquareRootFraction(2, 0x6a09e667)
    ensures IsSquareRootFraction(3, 0xbb67ae85)
    ensures IsSquareRootFraction(5, 0x3c6ef372)
    ensures IsSquareRootFraction(7, 0xa54ff53a)
    ensures IsSquareRootFraction(11, 0x510e527f)
    ensures IsSquareRootFraction(13, 0x9b05688c)
    ensures IsSquareRootFraction(17, 0x1f83d9ab)
    ensures IsSquareRootFraction(19, 0x5be0cd19)
  {
    hide IsSquareRootFraction;
    SquareRootFraction(2, 0x1_6a09_e667);
    SquareRootFraction(3, 0x1_bb67_ae85);
    SquareRootFraction(5, 0x2_3c6e_f372);
    SquareRootFraction(7, 0x2_a54f_f53a);
    SquareRootFraction(11, 0x3_510e_527f);
    SquareRootFraction(13, 0x3_9b05_688c);
    SquareRootFraction(17, 0x4_1f83_d9ab);
    SquareRootFraction(19, 0x4_5be0_cd19);
  }

  /** Section 5.3.3: the initial hash is the fractional parts of the square roots of the first
      eight primes. */
  lemma InitialHashLaw(i: nat)
    requires i < 8
    ensures IsSquareRootFraction(Prime(i), WordsOf(INITIAL_HASH)[i])
  {
    hide IsSquareRootFraction;
    SquareRoots();
  }

  // ---------------------------------------------------------------- the first 64 primes

  /** Not divisible by any prime up to 17 but itself. */
  predicate Sifted(n: nat) {
    && n >= 2 && (n == 2 || n % 2 != 0) && (n == 3 || n % 3 != 0) && (n == 5 || n % 5 != 0) && (n == 7 || n % 7 != 0)
    && (n == 11 || n % 11 != 0) && (n == 13 || n % 13 != 0) && (n == 17 || n % 17 != 0)
  }

  lemma SiftedIsPrime(n: nat)
    requires n < 361
    ensures Sifted(n) <==> IsPrime(n)
  {
    if Sifted(n) {
      forall d | 2 <= d < n
        ensures n % d != 0
      {
        if n % d == 0 {
          SmallDivisor(n, d);
        }
      }
    } else if n >= 2 && IsPrime(n) {
      var q :| q in {2, 3, 5, 7, 11, 13, 17} && n != q && n % q == 0;
    }
  }

  /** A composite below 19 squared has a divisor below 19, hence a prime one. */
  lemma SmallDivisor(n: nat, d: nat)
    requires n < 361 && 2 <= d < n && n % d == 0
    ensures !Sifted(n)
  {
    var e := n / d;
    DivMod(n, d);
    assert n == d * e;
    CofactorBounds(n, d, e);
    if d <= 18 {
      DivisorIsSifted(n, d, e);
    } else {
      DivisorIsSifted(n, e, d);
    }
  }

  lemma CofactorBounds(n: nat, d: nat, e: int)
    requires n == d * e && n < 361 && 2 <= d < n
    ensures 2 <= e < n && (d <= 18 || e <= 18)
  {
  }

  lemma DivisorIsSifted(n: nat, m: nat, k: nat)
    requires n == m * k && 2 <= m <= 18 && 2 <= k
    ensures !Sifted(n)
  {
    var q := SmallPrimeFactor(m);
    var j := m / q;
    assert n == q * (j * k) by { assert m == q * j; }
    MultipleOf(n, q, j * k);
    assert n > q by { assert j * k >= 2; }
  }

  lemma MultipleOf(n: nat, q: nat, c: nat)
    requires q > 0 && n == q * c
    ensures n % q == 0
  {
    EuclidUnique(n, q, c, 0);
  }

  lemma SmallPrimeFactor(m: nat) returns (q: nat)
    requires 2 <= m <= 18
    ensures q in {2, 3, 5, 7, 11, 13, 17} && m % q == 0 && m / q >= 1 && m == q * (m / q)
  {
    q := if m % 2 == 0 then 2 else if m % 3 == 0 then 3 else if m % 5 == 0 then 5 else m;
  }

  /** Nothing between the two passes the sieve. */
  predicate Gap(low: nat, high: nat) {
    high <= low + 1 || (!Sifted(high - 1) && Gap(low, high - 1))
  }

  lemma {:induction false} GapIsEmpty(low: nat, high: nat, n: nat)
    requires Gap(low, high) && low < n < high
    ensures !Sifted(n)
    decreases high
  {
    hide Sifted;
    if n < high - 1 {
      GapIsEmpty(low, high - 1, n);
    }
  }

  lemma Gaps0()
    ensures Sifted(2) && Sifted(3) && Sifted(5) && Sifted(7) && Sifted(11) && Sifted(13) && Sifted(17) && Sifted(19)
    ensures Gap(2, 3) && Gap(3, 5) && Gap(5, 7) && Gap(7, 11) && Gap(11, 13) && Gap(13, 17) && Gap(17, 19) && Gap(19, 23)
  {
  }

  lemma Gaps1()
    ensures Sifted(23) && Sifted(29) && Sifted(31) && Sifted(37) && Sifted(41) && Sifted(43) && Sifted(47) && Sifted(53)
    ensures Gap(23, 29) && Gap(29, 31) && Gap(31, 37) && Gap(37, 41) && Gap(41, 43) && Gap(43, 47) && Gap(47, 53) && Gap(53, 59)
  {
  }

  lemma Gaps2()
    ensures Sifted(59) && Sifted(61) && Sifted(67) && Sifted(71) && Sifted(73) && Sifted(79) && Sifted(83) && Sifted(89)
    ensures Gap(59, 61) && Gap(61, 67) && Gap(67, 71) && Gap(71, 73) && Gap(73, 79) && Gap(79, 83) && Gap(83, 89) && Gap(89, 97)
  {
  }

  lemma Gaps3()
    ensures Sifted(97) && Sifted(101) && Sifted(103) && Sifted(107) && Sifted(109) && Sifted(113) && Sifted(127) && Sifted(131)
    ensures Gap(97, 101) && Gap(101, 103) && Gap(103, 107) && Gap(107, 109) && Gap(109, 113) && Gap(113, 127) && Gap(127, 131) && Gap(131, 137)
  {
  }

  lemma Gaps4()
    ensures Sifted(137) && Sifted(139) && Sifted(149) && Sifted(151) && Sifted(157) && Sifted(163) && Sifted(167) && Sifted(173)
    ensures Gap(137, 139) && Gap(139, 149) && Gap(149, 151) && Gap(151, 157) && Gap(157, 163) && Gap(163, 167) && Gap(167, 173) && Gap(173, 179)
  {
  }

  lemma Gaps5()
    ensures Sifted(179) && Sifted(181) && Sifted(191) && Sifted(193) && Sifted(197) && Sifted(199) && Sifted(211) && Sifted(223)
    ensures Gap(179, 181) && Gap(181, 191) && Gap(191, 193) && Gap(193, 197) && Gap(197, 199) && Gap(199, 211) && Gap(211, 223) && Gap(223, 227)
  {
  }

  lemma Gaps6()
    ensures Sifted(227) && Sifted(229) && Sifted(233) && Sifted(239) && Sifted(241) && Sifted(251) && Sifted(257) && Sifted(263)
    ensures Gap(227, 229) && Gap(229, 233) && Gap(233, 239) && Gap(239, 241) && Gap(241, 251) && Gap(251, 257) && Gap(257, 263) && Gap(263, 269)
  {
  }

  lemma Gaps7()
    ensures Sifted(269) && Sifted(271) && Sifted(277) && Sifted(281) && Sifted(283) && Sifted(293) && Sifted(307) && Sifted(311)
    ensures Gap(269, 271) && Gap(271, 277) && Gap(277, 281) && Gap(281, 283) && Gap(283, 293) && Gap(293, 307) && Gap(307, 311)
  {
  }

  lemma PrimeRow0(t: nat)
    requires 0 <= t < 8
    ensures Sifted(Prime(t)) && (t < 63 ==> Prime(t) < Prime(t + 1) && Gap(Prime(t), Prime(t + 1)))
  {
    hide Sifted, Gap;
    Gaps0();
  }

  lemma PrimeRow1(t: nat)
    requires 8 <= t < 16
    ensures Sifted(Prime(t)) && (t < 63 ==> Prime(t) < Prime(t + 1) && Gap(Prime(t), Prime(t + 1)))
  {
    hide Sifted, Gap;
    Gaps1();
  }

  lemma PrimeRow2(t: nat)
    requires 16 <= t < 24
    ensures Sifted(Prime(t)) && (t < 63 ==> Prime(t) < Prime(t + 1) && Gap(Prime(t), Prime(t + 1)))
  {
    hide Sifted, Gap;
    Gaps2();
  }

  lemma PrimeRow3(t: nat)
    requires 24 <= t < 32
    ensures Sifted(Prime(t)) && (t < 63 ==> Prime(t) < Prime(t + 1) && Gap(Prime(t), Prime(t + 1)))
  {
    hide Sifted, Gap;
    Gaps3();
  }

  lemma PrimeRow4(t: nat)
    requires 32 <= t < 40
    ensures Sifted(Prime(t)) && (t < 63 ==> Prime(t) < Prime(t + 1) && Gap(Prime(t), Prime(t + 1)))
  {
    hide Sifted, Gap;
    Gaps4();
  }

  lemma PrimeRow5(t: nat)
    requires 40 <= t < 48
    ensures Sifted(Prime(t)) && (t < 63 ==> Prime(t) < Prime(t + 1) && Gap(Prime(t), Prime(t + 1)))
  {
    hide Sifted, Gap;
    Gaps5();
  }

  lemma PrimeRow6(t: nat)
    requires 48 <= t < 56
    ensures Sifted(Prime(t)) && (t < 63 ==> Prime(t) < Prime(t + 1) && Gap(Prime(t), Prime(t + 1)))
  {
    hide Sifted, Gap;
    Gaps6();
  }

  lemma PrimeRow7(t: nat)
    requires 56 <= t < 64
    ensures Sifted(Prime(t)) && (t < 63 ==> Prime(t) < Prime(t + 1) && Gap(Prime(t), Prime(t + 1)))
  {
    hide Sifted, Gap;
    Gaps7();
  }

  /** `Prime` enumerates the primes from 2 on without leaving one out. */
  lemma PrimesAreConsecutive(t: nat, n: nat)
    requires t < 64
    ensures Prime(0) == 2 && IsPrime(Prime(t))
    ensures t < 63 ==> Prime(t) < Prime(t + 1)
    ensures t < 63 && Prime(t) < n < Prime(t + 1) ==> !IsPrime(n)
  {
    hide Sifted, Gap, IsPrime;
    if t < 8 { PrimeRow0(t); }
    else if t < 16 { PrimeRow1(t); }
    else if t < 24 { PrimeRow2(t); }
    else if t < 32 { PrimeRow3(t); }
    else if t < 40 { PrimeRow4(t); }
    else if t < 48 { PrimeRow5(t); }
    else if t < 56 { PrimeRow6(t); }
    else { PrimeRow7(t); }
    PrimesAreSmall(t);
    SiftedIsPrime(Prime(t));
    if t < 63 && Prime(t) < n < Prime(t + 1) {
      PrimesAreSmall(t + 1);
      GapIsEmpty(Prime(t), Prime(t + 1), n);
      SiftedIsPrime(n);
    }
  }

  lemma PrimesAreSmall(t: nat)
    requires t < 64
    ensures Prime(t) < 361
  {
  }
}
