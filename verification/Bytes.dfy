/** Big-endian integers and fixed-layout byte records.

    Every binary format of the system is a concatenation of fields. A layout is given by the
    offsets of its fields; cutting bytes at those offsets and concatenating fields are inverse
    to each other, and that is the one fact behind every round trip proved in this project. */
module Bytes {
  import opened Integers

  type ByteString = seq<U8>

  function Pow256(n: nat): (p: nat)
    ensures p > 0
  {
    if n == 0 then 1 else 256 * Pow256(n - 1)
  }

  /** The `width` low-order bytes of `v`, most significant first. */
  function BigEndian(width: nat, v: nat): (bs: ByteString)
    ensures |bs| == width
  {
    if width == 0 then [] else BigEndian(width - 1, v / 256) + [v % 256]
  }

  /** The number that a byte string spells in base 256. */
  function Value(bs: ByteString): nat {
    if bs == [] then 0 else Value(bs[..|bs| - 1]) * 256 + bs[|bs| - 1]
  }

  lemma {:induction false} ValueBound(bs: ByteString)
    ensures Value(bs) < Pow256(|bs|)
  {
    if bs != [] {
      ValueBound(bs[..|bs| - 1]);
    }
  }

  lemma {:induction false} ValueOfBigEndian(width: nat, v: nat)
    requires v < Pow256(width)
    ensures Value(BigEndian(width, v)) == v
  {
    if width > 0 {
      ValueOfBigEndian(width - 1, v / 256);
      assert BigEndian(width, v)[..width - 1] == BigEndian(width - 1, v / 256);
    }
  }

  lemma {:induction false} BigEndianOfValue(bs: ByteString)
    ensures BigEndian(|bs|, Value(bs)) == bs
  {
    if bs != [] {
      BigEndianOfValue(bs[..|bs| - 1]);
      assert bs == bs[..|bs| - 1] + [bs[|bs| - 1]];
    }
  }

  /** The byte at a position is the value shifted right by the bytes that follow, truncated. */
  lemma {:induction false} BigEndianAt(width: nat, v: nat, i: nat)
    requires i < width
    ensures BigEndian(width, v)[i] == v / Pow256(width - 1 - i) % 256
  {
    if i < width - 1 {
      BigEndianAt(width - 1, v / 256, i);
      DivDiv(v, 256, Pow256(width - 2 - i));
    }
  }

  lemma DivDiv(v: nat, a: nat, b: nat)
    requires a > 0 && b > 0
    ensures a * b > 0
    ensures v / a / b == v / (a * b)
  {
    var q, r, q2, r2 := v / a, v % a, v / a / b, v / a % b;
    DivMod(v, a);
    DivMod(q, b);
    Renest(q2, r2, r, a, b);
    EuclidUnique(v, a * b, q2, r2 * a + r);
  }

  lemma Renest(q: nat, s: nat, r: nat, a: nat, b: nat)
    requires r < a && s < b
    ensures a * b > 0
    ensures (q * b + s) * a + r == q * (a * b) + (s * a + r)
    ensures s * a + r < a * b
  {
    assert (q * b + s) * a == q * b * a + s * a;
    assert q * b * a == q * (b * a);
    assert s * a <= (b - 1) * a == b * a - a;
  }

  function Zeros(n: nat): (z: ByteString)
    ensures |z| == n && forall i :: 0 <= i < n ==> z[i] == 0
  {
    seq(n, _ => 0)
  }

  lemma Powers()
    ensures Pow256(0) == 1 && Pow256(1) == TWO_8 && Pow256(2) == TWO_16 && Pow256(4) == TWO_32 && Pow256(8) == TWO_64
  {
    assert Pow256(2) == 256 * Pow256(1);
    assert Pow256(3) == 256 * Pow256(2);
    assert Pow256(4) == 256 * Pow256(3);
    assert Pow256(5) == 256 * Pow256(4);
    assert Pow256(6) == 256 * Pow256(5);
    assert Pow256(7) == 256 * Pow256(6);
  }

  // ---------------------------------------------------------------- typed fields

  function BytesOfU16(v: U16): (bs: ByteString)
    ensures |bs| == 2
  {
    BigEndian(2, v)
  }

  function BytesOfU32(v: U32): (bs: ByteString)
    ensures |bs| == 4
  {
    BigEndian(4, v)
  }

  function BytesOfU64(v: U64): (bs: ByteString)
    ensures |bs| == 8
  {
    BigEndian(8, v)
  }

  function BytesOfI64(v: I64): (bs: ByteString)
    ensures |bs| == 8
  {
    BytesOfU64(ToUnsigned(v))
  }

  function U16OfBytes(bs: ByteString): (v: U16)
    requires |bs| == 2
    ensures BytesOfU16(v) == bs
  {
    ValueBound(bs); Powers(); BigEndianOfValue(bs);
    Value(bs)
  }

  function U32OfBytes(bs: ByteString): (v: U32)
    requires |bs| == 4
    ensures BytesOfU32(v) == bs
  {
    ValueBound(bs); Powers(); BigEndianOfValue(bs);
    Value(bs)
  }

  function U64OfBytes(bs: ByteString): (v: U64)
    requires |bs| == 8
    ensures BytesOfU64(v) == bs
  {
    ValueBound(bs); Powers(); BigEndianOfValue(bs);
    Value(bs)
  }

  function I64OfBytes(bs: ByteString): (v: I64)
    requires |bs| == 8
    ensures BytesOfI64(v) == bs
  {
    ToSigned(U64OfBytes(bs))
  }

  /** Signed fields are written in two's complement. */
  lemma TwosComplement(v: I64)
    ensures Value(BytesOfI64(v)) == if v < 0 then v + 0x1_0000_0000_0000_0000 else v
  {
    Powers();
    ValueOfBigEndian(8, ToUnsigned(v));
  }

  lemma U16RoundTrip(v: U16)
    ensures U16OfBytes(BytesOfU16(v)) == v
  {
    Powers(); ValueOfBigEndian(2, v);
  }

  lemma U32RoundTrip(v: U32)
    ensures U32OfBytes(BytesOfU32(v)) == v
  {
    Powers(); ValueOfBigEndian(4, v);
  }

  lemma U64RoundTrip(v: U64)
    ensures U64OfBytes(BytesOfU64(v)) == v
  {
    Powers(); ValueOfBigEndian(8, v);
  }

  lemma I64RoundTrip(v: I64)
    ensures I64OfBytes(BytesOfI64(v)) == v
  {
    U64RoundTrip(ToUnsigned(v));
  }

  /** The writers' loop: one byte per shift, from the most significant down. */
  method EncodeU64(v: U64) returns (bs: ByteString)
    ensures bs == BytesOfU64(v)
  {
    var shifts := [7, 6, 5, 4, 3, 2, 1, 0];
    bs := [];
    for i := 0 to 8
      invariant |bs| == i
      invariant forall j :: 0 <= j < i ==> bs[j] == BytesOfU64(v)[j]
    {
      BigEndianAt(8, v, i);
      bs := bs + [v / Pow256(shifts[i]) % 256];
    }
  }

  /** The readers' loop: shift the accumulator left by one byte, modulo 2^64, and or in the next
      byte. Nothing is ever shifted out. */
  method DecodeU64(bs: ByteString) returns (v: U64)
    requires |bs| == 8
    ensures v == U64OfBytes(bs)
  {
    v := 0;
    for i := 0 to 8
      invariant v == Value(bs[..i])
    {
      ValueBound(bs[..i]);
      PowMonotone(i, 7);
      Powers();
      assert v * 256 < TWO_64;
      assert bs[..i + 1][..i] == bs[..i];
      v := v * 256 % TWO_64 + bs[i];
    }
    assert bs[..8] == bs;
  }

  lemma {:induction false} PowMonotone(a: nat, b: nat)
    requires a <= b
    ensures Pow256(a) <= Pow256(b)
  {
    if a < b {
      PowMonotone(a, b - 1);
    }
  }

  // ---------------------------------------------------------------- concatenation of fields

  function Concat(fs: seq<ByteString>): ByteString {
    if fs == [] then [] else fs[0] + Concat(fs[1..])
  }

  lemma {:induction false} ConcatAppend(fs: seq<ByteString>, gs: seq<ByteString>)
    ensures Concat(fs + gs) == Concat(fs) + Concat(gs)
  {
    if fs == [] {
      assert fs + gs == gs;
    } else {
      assert (fs + gs)[1..] == fs[1..] + gs;
      ConcatAppend(fs[1..], gs);
    }
  }

  lemma ConcatOne(f: ByteString)
    ensures Concat([f]) == f
  {
    assert [f][1..] == [];
    assert f + [] == f;
  }

  lemma ConcatSnoc(fs: seq<ByteString>, f: ByteString)
    ensures Concat(fs + [f]) == Concat(fs) + f
  {
    ConcatAppend(fs, [f]);
    ConcatOne(f);
  }

  /** Fields of known widths can be recovered from their concatenation. */
  lemma {:induction false} ConcatInjective(fs: seq<ByteString>, gs: seq<ByteString>, s: ByteString, t: ByteString)
    requires |fs| == |gs|
    requires forall i :: 0 <= i < |fs| ==> |fs[i]| == |gs[i]|
    requires Concat(fs) + s == Concat(gs) + t
    ensures fs == gs && s == t
  {
    if fs != [] {
      var rf, rg := Concat(fs[1..]) + s, Concat(gs[1..]) + t;
      assert fs[0] + rf == Concat(fs) + s;
      assert gs[0] + rg == Concat(gs) + t;
      SplitFirst(fs[0], rf, gs[0], rg);
      ConcatInjective(fs[1..], gs[1..], s, t);
      assert fs == [fs[0]] + fs[1..] && gs == [gs[0]] + gs[1..];
    } else {
      assert Concat(fs) + s == s && Concat(gs) + t == t;
    }
  }

  lemma SplitFirst(a: ByteString, x: ByteString, b: ByteString, y: ByteString)
    requires |a| == |b| && a + x == b + y
    ensures a == b && x == y
  {
    assert a == (a + x)[..|a|] == b;
    assert x == (a + x)[|a|..] == y;
  }

  /** Offsets that start at zero and never decrease. */
  predicate IsLayout(offs: seq<nat>) {
    && |offs| >= 1
    && offs[0] == 0
    && forall i :: 0 <= i < |offs| - 1 ==> offs[i] <= offs[i + 1]
  }

  lemma {:induction false} LayoutBound(offs: seq<nat>, i: nat)
    requires IsLayout(offs) && i < |offs|
    ensures offs[i] <= offs[|offs| - 1]
    decreases |offs| - i
  {
    if i < |offs| - 1 {
      LayoutBound(offs, i + 1);
    }
  }

  lemma LayoutBounds(offs: seq<nat>)
    requires IsLayout(offs)
    ensures forall i :: 0 <= i < |offs| ==> offs[i] <= offs[|offs| - 1]
  {
    forall i | 0 <= i < |offs|
      ensures offs[i] <= offs[|offs| - 1]
    {
      LayoutBound(offs, i);
    }
  }

  function Field(b: ByteString, offs: seq<nat>, i: nat): ByteString
    requires IsLayout(offs) && i < |offs| - 1 && offs[|offs| - 1] <= |b|
  {
    LayoutBound(offs, i + 1);
    b[offs[i]..offs[i + 1]]
  }

  /** The fields of `b` under a layout. */
  function Slices(b: ByteString, offs: seq<nat>): (fs: seq<ByteString>)
    requires IsLayout(offs) && offs[|offs| - 1] <= |b|
    ensures |fs| == |offs| - 1
    ensures forall i :: 0 <= i < |offs| ==> offs[i] <= |b|
    ensures forall i :: 0 <= i < |fs| ==> fs[i] == b[offs[i]..offs[i + 1]]
  {
    LayoutBounds(offs);
    seq(|offs| - 1, i requires 0 <= i < |offs| - 1 => Field(b, offs, i))
  }

  /** Cutting loses nothing: the fields concatenate back to the bytes covered. */
  lemma {:induction false} ConcatSlices(b: ByteString, offs: seq<nat>)
    requires IsLayout(offs) && offs[|offs| - 1] <= |b|
    ensures Concat(Slices(b, offs)) == b[..offs[|offs| - 1]]
  {
    var n := |offs| - 1;
    if n > 0 {
      var short := offs[..n];
      ConcatSlices(b, short);
      assert Slices(b, offs) == Slices(b, short) + [b[offs[n - 1]..offs[n]]];
      ConcatSnoc(Slices(b, short), b[offs[n - 1]..offs[n]]);
    }
  }

  /** Fields that fit a layout are recovered by cutting their concatenation. */
  lemma SlicesConcat(fs: seq<ByteString>, offs: seq<nat>, rest: ByteString)
    requires IsLayout(offs) && |fs| == |offs| - 1
    requires forall i :: 0 <= i < |fs| ==> |fs[i]| == offs[i + 1] - offs[i]
    ensures |Concat(fs)| == offs[|offs| - 1]
    ensures Slices(Concat(fs) + rest, offs) == fs
  {
    ConcatLength(fs, offs);
    var b := Concat(fs) + rest;
    ConcatSlices(b, offs);
    assert b[..|Concat(fs)|] == Concat(fs);
    assert Concat(Slices(b, offs)) + [] == Concat(fs) + [];
    ConcatInjective(Slices(b, offs), fs, [], []);
  }

  lemma {:induction false} ConcatLength(fs: seq<ByteString>, offs: seq<nat>)
    requires IsLayout(offs) && |fs| == |offs| - 1
    requires forall i :: 0 <= i < |fs| ==> |fs[i]| == offs[i + 1] - offs[i]
    ensures |Concat(fs)| == offs[|offs| - 1]
  {
    var n := |fs|;
    if n > 0 {
      ConcatLength(fs[..n - 1], offs[..n]);
      ConcatSnoc(fs[..n - 1], fs[n - 1]);
      assert fs == fs[..n - 1] + [fs[n - 1]];
    }
  }

  /** Fields of one common width. */
  lemma {:induction false} ConcatUniformLength(fs: seq<ByteString>, width: nat)
    requires forall i :: 0 <= i < |fs| ==> |fs[i]| == width
    ensures |Concat(fs)| == |fs| * width
  {
    if fs != [] {
      ConcatUniformLength(fs[1..], width);
      assert |fs| * width == width + (|fs| - 1) * width;
    }
  }
}
