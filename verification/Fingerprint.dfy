/** The 64-bit FNV-1a fingerprint. */
module Fingerprint {
  import opened Integers
  import opened Bits
  import opened Bytes

  const OFFSET_BASIS: U64 := 14_695_981_039_346_656_037
  const PRIME: U64 := 1_099_511_628_211

  /** The inverse of the prime modulo 2^64. */
  const PRIME_INVERSE: U64 := 14_886_173_955_864_302_971

  function Xor64(a: U64, b: U64): U64 {
    SixtyFourBits();
    Xor(64, a, b)
  }

  function Mix(hash: U64, b: U8): U64 {
    Xor64(hash, b) * PRIME % TWO_64
  }

  function FnvFrom(hash: U64, bytes: ByteString): U64
    decreases |bytes|
  {
    if bytes == [] then hash else FnvFrom(Mix(hash, bytes[0]), bytes[1..])
  }

  function Fnv(bytes: ByteString): U64 {
    FnvFrom(OFFSET_BASIS, bytes)
  }

  method FingerprintBytes(bytes: ByteString) returns (hash: U64)
    ensures hash == Fnv(bytes)
  {
    hide Xor64;
    hash := OFFSET_BASIS;
    for i := 0 to |bytes|
      invariant Fnv(bytes) == FnvFrom(hash, bytes[i..])
    {
      assert bytes[i..][0] == bytes[i] && bytes[i..][1..] == bytes[i + 1..];
      hash := Xor64(hash, bytes[i]);
      hash := hash * PRIME % TWO_64;
    }
  }

  /** The published values of FNV-1a for the empty string and for "a". */
  lemma KnownFingerprints()
    ensures Fnv([]) == 0xcbf2_9ce4_8422_2325
    ensures Fnv([0x61]) == 0xaf63_dc4c_8601_ec8c
  {
    hide Xor64;
    BasisXor();
    assert [0x61][1..] == [];
  }

  lemma BasisXor()
    ensures Xor64(0xcbf2_9ce4_8422_2325, 0x61) == 0xcbf2_9ce4_8422_2344
  {
    hide Xor, Pow2;
    PowMinus();
    XorZero(57, 0x197e539c9084446);
    XorStep(58, 0x32fca739210888c, 0x1, 0x197e539c9084446);
    XorStep(59, 0x65f94e724211119, 0x3, 0x32fca739210888d);
    XorStep(60, 0xcbf29ce48422232, 0x6, 0x65f94e72421111a);
    XorStep(61, 0x197e539c90844464, 0xc, 0xcbf29ce48422234);
    XorStep(62, 0x32fca739210888c9, 0x18, 0x197e539c90844468);
    XorStep(63, 0x65f94e7242111192, 0x30, 0x32fca739210888d1);
    XorStep(64, 0xcbf29ce484222325, 0x61, 0x65f94e72421111a2);
  }

  lemma PowMinus()
    ensures Pow2(57) * 128 == TWO_64
  {
    SixtyFourBits();
    PowSum(57, 7);
    assert Pow2(7) == 128;
  }

  // ---------------------------------------------------------------- every step is a bijection

  lemma MultiplyUndo(a: U64)
    ensures a * PRIME % TWO_64 * PRIME_INVERSE % TWO_64 == a
  {
    var p: int, inv: int, m: int := PRIME, PRIME_INVERSE, TWO_64;
    var k: int, q: int := (p * inv - 1) / m, a * p / m;
    assert p * inv == 1 + k * m;
    assert a * p % m == a * p - q * m by { DivMod(a * p, m); }
    assert (a * p - q * m) * inv == a + (a * k - q * inv) * m by {
      Rearrange(a, p, inv, q, k, m);
    }
    EuclidUnique((a * p - q * m) * inv, m, a * k - q * inv, a);
  }

  lemma Rearrange(a: int, p: int, inv: int, q: int, k: int, m: int)
    requires p * inv == 1 + k * m
    ensures (a * p - q * m) * inv == a + (a * k - q * inv) * m
  {
    calc {
      (a * p - q * m) * inv;
      a * p * inv - q * m * inv;
      { assert a * p * inv == a * (p * inv); }
      a * (1 + k * m) - q * m * inv;
      { assert a * (1 + k * m) == a + a * k * m; assert q * m * inv == q * inv * m; }
      a + a * k * m - q * inv * m;
      { Distribute(a * k, q * inv, m); }
      a + (a * k - q * inv) * m;
    }
  }

  lemma MixInjective(g: U64, h: U64, b: U8, c: U8)
    requires g == h ==> b != c
    requires b == c ==> g != h
    requires g == h || b == c
    ensures Mix(g, b) != Mix(h, c)
  {
    SixtyFourBits();
    MultiplyUndo(Xor64(g, b));
    MultiplyUndo(Xor64(h, c));
    XorUndo(64, g, b);
    XorUndo(64, h, c);
    XorCommutes(64, g, b);
    XorCommutes(64, h, c);
    XorUndo(64, b, g);
    XorUndo(64, c, h);
  }

  lemma {:induction false} DifferentStatesStayDifferent(g: U64, h: U64, bytes: ByteString)
    requires g != h
    ensures FnvFrom(g, bytes) != FnvFrom(h, bytes)
    decreases |bytes|
  {
    hide Mix;
    if bytes != [] {
      MixInjective(g, h, bytes[0], bytes[0]);
      DifferentStatesStayDifferent(Mix(g, bytes[0]), Mix(h, bytes[0]), bytes[1..]);
    }
  }

  lemma {:induction false} FnvFromSplit(h: U64, a: ByteString, b: ByteString)
    ensures FnvFrom(h, a + b) == FnvFrom(FnvFrom(h, a), b)
    decreases |a|
  {
    hide Mix;
    if a == [] {
      assert a + b == b;
    } else {
      assert (a + b)[1..] == a[1..] + b;
      FnvFromSplit(Mix(h, a[0]), a[1..], b);
    }
  }

  /** Changing exactly one byte always changes the fingerprint. */
  lemma OneByteChangesFingerprint(s: ByteString, t: ByteString, i: nat)
    requires |s| == |t| && i < |s|
    requires s[i] != t[i]
    requires forall j :: 0 <= j < |s| && j != i ==> s[j] == t[j]
    ensures Fnv(s) != Fnv(t)
  {
    hide Mix;
    var before, after := s[..i], s[i + 1..];
    assert t[..i] == before && t[i + 1..] == after;
    assert s == before + ([s[i]] + after) && t == before + ([t[i]] + after);
    FnvFromSplit(OFFSET_BASIS, before, [s[i]] + after);
    FnvFromSplit(OFFSET_BASIS, before, [t[i]] + after);
    var h := FnvFrom(OFFSET_BASIS, before);
    assert ([s[i]] + after)[1..] == after && ([t[i]] + after)[1..] == after;
    MixInjective(h, h, s[i], t[i]);
    DifferentStatesStayDifferent(Mix(h, s[i]), Mix(h, t[i]), after);
  }
}
