/** SHA-256: the functions of FIPS 180-4 and the block-and-tail implementation proved against
    them. */
module Sha256 {
  import opened Integers
  import opened Bits
  import opened Bytes

  type Word = U32

  // ---------------------------------------------------------------- section 4.1.2: functions

  function Xor32(a: Word, b: Word): Word {
    ThirtyTwoBits();
    Xor(32, a, b)
  }

  function And32(a: Word, b: Word): Word {
    ThirtyTwoBits();
    And(32, a, b)
  }

  function Not32(a: Word): Word {
    TWO_32 - 1 - a
  }

  function Add32(a: Word, b: Word): Word {
    (a + b) % 0x1_0000_0000
  }

  function ShiftRight(x: Word, n: nat): Word {
    DivShrinks(x, Pow2(n));
    x / Pow2(n)
  }

  lemma DivShrinks(x: nat, d: nat)
    requires d > 0
    ensures 0 <= x / d <= x
  {
    DivMod(x, d);
    QuotientBound(x / d, x % d, d, x);
  }

  lemma QuotientBound(q: int, r: int, d: int, x: int)
    requires q * d + r == x && 0 <= r < d && x >= 0
    ensures 0 <= q <= x
  {
    if q <= -1 {
      MulAtLeast(-q, d);
    } else {
      assert q * d == q + q * (d - 1);
    }
  }

  /** The rotated word is below 2^32 already; the modulus only records that. */
  function RotateRight(x: Word, n: nat): Word
    requires n <= 32
  {
    (x / Pow2(n) + x % Pow2(n) * Pow2(32 - n)) % 0x1_0000_0000
  }

  function Choose(x: Word, y: Word, z: Word): Word {
    Xor32(And32(x, y), And32(Not32(x), z))
  }

  function Majority(x: Word, y: Word, z: Word): Word {
    Xor32(Xor32(And32(x, y), And32(x, z)), And32(y, z))
  }

  function LargeSigmaZero(x: Word): Word {
    Xor32(Xor32(RotateRight(x, 2), RotateRight(x, 13)), RotateRight(x, 22))
  }

  function LargeSigmaOne(x: Word): Word {
    Xor32(Xor32(RotateRight(x, 6), RotateRight(x, 11)), RotateRight(x, 25))
  }

  function SmallSigmaZero(x: Word): Word {
    Xor32(Xor32(RotateRight(x, 7), RotateRight(x, 18)), ShiftRight(x, 3))
  }

  function SmallSigmaOne(x: Word): Word {
    Xor32(Xor32(RotateRight(x, 17), RotateRight(x, 19)), ShiftRight(x, 10))
  }

  /** Section 4.2.2, in eight rows of eight. */
  const K: seq<seq<Word>> := [
    [0x428a2f98, 0x71374491, 0xb5c0fbcf, 0xe9b5dba5, 0x3956c25b, 0x59f111f1, 0x923f82a4, 0xab1c5ed5],
    [0xd807aa98, 0x12835b01, 0x243185be, 0x550c7dc3, 0x72be5d74, 0x80deb1fe, 0x9bdc06a7, 0xc19bf174],
    [0xe49b69c1, 0xefbe4786, 0x0fc19dc6, 0x240ca1cc, 0x2de92c6f, 0x4a7484aa, 0x5cb0a9dc, 0x76f988da],
    [0x983e5152, 0xa831c66d, 0xb00327c8, 0xbf597fc7, 0xc6e00bf3, 0xd5a79147, 0x06ca6351, 0x14292967],
    [0x27b70a85, 0x2e1b2138, 0x4d2c6dfc, 0x53380d13, 0x650a7354, 0x766a0abb, 0x81c2c92e, 0x92722c85],
    [0xa2bfe8a1, 0xa81a664b, 0xc24b8b70, 0xc76c51a3, 0xd192e819, 0xd6990624, 0xf40e3585, 0x106aa070],
    [0x19a4c116, 0x1e376c08, 0x2748774c, 0x34b0bcb5, 0x391c0cb3, 0x4ed8aa4a, 0x5b9cca4f, 0x682e6ff3],
    [0x748f82ee, 0x78a5636f, 0x84c87814, 0x8cc70208, 0x90befffa, 0xa4506ceb, 0xbef9a3f7, 0xc67178f2]
  ]

  function RoundConstant(t: nat): Word
    requires t < 64
  {
    K[t / 8][t % 8]
  }

  // ---------------------------------------------------------------- section 6.2.2: compression

  datatype Vars = Vars(a: Word, b: Word, c: Word, d: Word, e: Word, f: Word, g: Word, h: Word)

  type Block = b: ByteString | |b| == 64 witness seq(64, _ => 0)

  /** Section 5.2.1: a block is sixteen big-endian words. */
  function BlockWord(block: Block, t: nat): Word
    requires t < 16
  {
    U32OfBytes(block[4 * t..4 * t + 4])
  }

  /** The message schedule. */
  function Schedule(block: Block, t: nat): Word
    requires t < 64
  {
    if t < 16 then
      BlockWord(block, t)
    else
      (SmallSigmaOne(Schedule(block, t - 2)) + Schedule(block, t - 7)
       + SmallSigmaZero(Schedule(block, t - 15)) + Schedule(block, t - 16)) % TWO_32
  }

  function Round(v: Vars, k: Word, w: Word): Vars {
    var t1 := (v.h + LargeSigmaOne(v.e) + Choose(v.e, v.f, v.g) + k + w) % TWO_32;
    var t2 := (LargeSigmaZero(v.a) + Majority(v.a, v.b, v.c)) % TWO_32;
    Vars((t1 + t2) % TWO_32, v.a, v.b, v.c, (v.d + t1) % TWO_32, v.e, v.f, v.g)
  }

  function Rounds(v: Vars, block: Block, t: nat): Vars
    requires t <= 64
  {
    if t == 0 then v else Round(Rounds(v, block, t - 1), RoundConstant(t - 1), Schedule(block, t - 1))
  }

  function AddVars(u: Vars, v: Vars): Vars {
    Vars((u.a + v.a) % TWO_32, (u.b + v.b) % TWO_32, (u.c + v.c) % TWO_32, (u.d + v.d) % TWO_32,
         (u.e + v.e) % TWO_32, (u.f + v.f) % TWO_32, (u.g + v.g) % TWO_32, (u.h + v.h) % TWO_32)
  }

  function Compress(hash: Vars, block: Block): Vars {
    AddVars(Rounds(hash, block, 64), hash)
  }

  /** Section 5.3.3. */
  const INITIAL_HASH: Vars := Vars(
    0x6a09e667, 0xbb67ae85, 0x3c6ef372, 0xa54ff53a, 0x510e527f, 0x9b05688c, 0x1f83d9ab, 0x5be0cd19)

  // ---------------------------------------------------------------- sections 5.1.1 and 6.2: padding and hashing

  /** The number of zero bytes after the 0x80 byte: the only count below 64 that leaves room for
      exactly the length field in the last block. */
  function ZeroCount(n: nat): (z: nat)
    ensures z < 64 && (n + 1 + z + 8) % 64 == 0
  {
    (55 - n) % 64
  }

  function Pad(m: ByteString): (p: ByteString)
    ensures |p| % 64 == 0
  {
    m + [0x80] + Zeros(ZeroCount(|m|)) + BigEndian(8, 8 * |m|)
  }

  /** Compresses the blocks of `p` one after the other. */
  function HashBlocks(hash: Vars, p: ByteString): Vars
    decreases |p|
  {
    if |p| < 64 then hash else HashBlocks(Compress(hash, p[..64]), p[64..])
  }

  function WordsOf(v: Vars): seq<Word> {
    [v.a, v.b, v.c, v.d, v.e, v.f, v.g, v.h]
  }

  type Digest = d: ByteString | |d| == 32 witness seq(32, _ => 0)

  function BytesOfWords(ws: seq<Word>): (b: ByteString)
    ensures |b| == 4 * |ws|
  {
    if ws == [] then [] else BytesOfWords(ws[..|ws| - 1]) + BytesOfU32(ws[|ws| - 1])
  }

  function DigestOf(v: Vars): Digest {
    BytesOfWords(WordsOf(v))
  }

  function Hash(m: ByteString): Digest {
    DigestOf(HashBlocks(INITIAL_HASH, Pad(m)))
  }

  // ---------------------------------------------------------------- the implementation

  /** The eight words of a state array. */
  function StateOf(s: seq<Word>): Vars
    requires |s| == 8
  {
    Vars(s[0], s[1], s[2], s[3], s[4], s[5], s[6], s[7])
  }

  lemma AddModulo(s: nat, b: Word)
    ensures Add32(s % 0x1_0000_0000, b) == (s + b) % 0x1_0000_0000
  {
  }

  lemma FourTerms(a: Word, b: Word, c: Word, d: Word)
    ensures Add32(Add32(Add32(a, b), c), d) == (d + c + b + a) % TWO_32
  {
    AddModulo(a + b, c);
    AddModulo(a + b + c, d);
  }

  lemma FiveTerms(a: Word, b: Word, c: Word, d: Word, e: Word)
    ensures Add32(Add32(Add32(Add32(a, b), c), d), e) == (a + b + c + d + e) % TWO_32
  {
    AddModulo(a + b, c);
    AddModulo(a + b + c, d);
    AddModulo(a + b + c + d, e);
  }

  method FillSchedule(block: Block, schedule: array<Word>)
    requires schedule.Length == 64
    modifies schedule
    ensures forall t :: 0 <= t < 64 ==> schedule[t] == Schedule(block, t)
  {
    hide BlockWord, SmallSigmaOne, SmallSigmaZero;
    for index := 0 to 16
      invariant forall t :: 0 <= t < index ==> schedule[t] == Schedule(block, t)
    {
      schedule[index] := BlockWord(block, index);
    }
    for index := 16 to 64
      invariant forall t :: 0 <= t < index ==> schedule[t] == Schedule(block, t)
    {
      var w := NextWord(schedule[index - 16], schedule[index - 15], schedule[index - 7], schedule[index - 2]);
      assert w == Schedule(block, index);
      schedule[index] := w;
    }
  }

  method NextWord(w16: Word, w15: Word, w7: Word, w2: Word) returns (w: Word)
    ensures w == (SmallSigmaOne(w2) + w7 + SmallSigmaZero(w15) + w16) % TWO_32
  {
    hide SmallSigmaOne, SmallSigmaZero;
    FourTerms(w16, SmallSigmaZero(w15), w7, SmallSigmaOne(w2));
    w := Add32(Add32(Add32(w16, SmallSigmaZero(w15)), w7), SmallSigmaOne(w2));
  }

  method RunRounds(start: Vars, block: Block, schedule: array<Word>) returns (v: Vars)
    requires schedule.Length == 64
    requires forall t :: 0 <= t < 64 ==> schedule[t] == Schedule(block, t)
    ensures v == Rounds(start, block, 64)
  {
    hide Schedule, Round, Add32, RoundConstant, LargeSigmaOne, LargeSigmaZero, Choose, Majority;
    var a, b, c, d := start.a, start.b, start.c, start.d;
    var e, f, g, h := start.e, start.f, start.g, start.h;
    for index := 0 to 64
      invariant Vars(a, b, c, d, e, f, g, h) == Rounds(start, block, index)
    {
      var first, second := Temporaries(a, b, c, e, f, g, h, RoundConstant(index), schedule[index]);
      RoundStep(Vars(a, b, c, d, e, f, g, h), RoundConstant(index), schedule[index], first, second);
      h := g;
      g := f;
      f := e;
      e := Add32(d, first);
      d := c;
      c := b;
      b := a;
      a := Add32(first, second);
    }
    v := Vars(a, b, c, d, e, f, g, h);
  }

  method ProcessBlock(block: Block, state: array<Word>)
    requires state.Length == 8
    modifies state
    ensures StateOf(state[..]) == Compress(old(StateOf(state[..])), block)
  {
    hide Schedule, Rounds, AddVars, StateOf;
    var schedule := new Word[64];
    FillSchedule(block, schedule);
    var v := RunRounds(StateOf(state[..]), block, schedule);
    AddToState(state, v);
  }

  method AddToState(state: array<Word>, v: Vars)
    requires state.Length == 8
    modifies state
    ensures StateOf(state[..]) == AddVars(v, old(StateOf(state[..])))
  {
    state[0] := Add32(state[0], v.a);
    state[1] := Add32(state[1], v.b);
    state[2] := Add32(state[2], v.c);
    state[3] := Add32(state[3], v.d);
    state[4] := Add32(state[4], v.e);
    state[5] := Add32(state[5], v.f);
    state[6] := Add32(state[6], v.g);
    state[7] := Add32(state[7], v.h);
  }

  method Temporaries(a: Word, b: Word, c: Word, e: Word, f: Word, g: Word, h: Word, k: Word, w: Word)
    returns (first: Word, second: Word)
    ensures first == (h + LargeSigmaOne(e) + Choose(e, f, g) + k + w) % TWO_32
    ensures second == (LargeSigmaZero(a) + Majority(a, b, c)) % TWO_32
  {
    hide LargeSigmaOne, LargeSigmaZero, Choose, Majority;
    FiveTerms(h, LargeSigmaOne(e), Choose(e, f, g), k, w);
    first := Add32(Add32(Add32(Add32(h, LargeSigmaOne(e)), Choose(e, f, g)), k), w);
    second := Add32(LargeSigmaZero(a), Majority(a, b, c));
  }

  lemma RoundStep(v: Vars, k: Word, w: Word, first: Word, second: Word)
    requires first == (v.h + LargeSigmaOne(v.e) + Choose(v.e, v.f, v.g) + k + w) % TWO_32
    requires second == (LargeSigmaZero(v.a) + Majority(v.a, v.b, v.c)) % TWO_32
    ensures Round(v, k, w) == Vars(Add32(first, second), v.a, v.b, v.c, Add32(v.d, first), v.e, v.f, v.g)
  {
    hide LargeSigmaOne, LargeSigmaZero, Choose, Majority;
  }

  lemma {:induction false} HashBlocksSplit(hash: Vars, a: ByteString, b: ByteString)
    requires |a| % 64 == 0
    ensures HashBlocks(hash, a + b) == HashBlocks(HashBlocks(hash, a), b)
    decreases |a|
  {
    hide Compress;
    if a == [] {
      assert a + b == b;
    } else {
      assert |a| >= 64;
      assert (a + b)[..64] == a[..64] && (a + b)[64..] == a[64..] + b;
      HashBlocksSplit(Compress(hash, a[..64]), a[64..], b);
    }
  }

  lemma HashOneBlock(hash: Vars, block: Block)
    ensures HashBlocks(hash, block) == Compress(hash, block)
  {
    hide Compress;
    assert block[..64] == block && block[64..] == [];
  }

  /** The complete blocks of the message. */
  method HashCompleteBlocks(bytes: ByteString, state: array<Word>) returns (consumed: nat)
    requires state.Length == 8
    modifies state
    ensures consumed == |bytes| / 64 * 64
    ensures consumed <= |bytes| < consumed + 64
    ensures StateOf(state[..]) == HashBlocks(old(StateOf(state[..])), bytes[..consumed])
  {
    hide Compress, HashBlocks;
    ghost var start := StateOf(state[..]);
    var complete := |bytes| / 64;
    assert HashBlocks(start, bytes[..0]) == start by { HashNothing(start); }
    for blockIndex := 0 to complete
      invariant StateOf(state[..]) == HashBlocks(start, bytes[..blockIndex * 64])
    {
      var offset := blockIndex * 64;
      var block: Block := bytes[offset..offset + 64];
      ProcessBlock(block, state);
      HashBlocksSplit(start, bytes[..offset], block);
      HashOneBlock(HashBlocks(start, bytes[..offset]), block);
      assert bytes[..offset + 64] == bytes[..offset] + block;
    }
    consumed := complete * 64;
  }

  lemma HashNothing(hash: Vars)
    ensures HashBlocks(hash, []) == hash
  {
  }

  /** The tail: what is left of the message, the 0x80 byte, zeros, and the length in the last
      eight bytes of one block or of two. */
  method FillTail(rest: ByteString, bitLength: U64, tail: array<U8>) returns (finalSize: nat)
    requires |rest| < 64 && tail.Length == 128
    requires forall i :: 0 <= i < 128 ==> tail[i] == 0
    modifies tail
    ensures finalSize == if |rest| < 56 then 64 else 128
    ensures |rest| + 9 <= finalSize
    ensures tail[..finalSize] == rest + [0x80] + Zeros(finalSize - |rest| - 9) + BigEndian(8, bitLength)
  {
    for index := 0 to |rest|
      invariant forall i :: 0 <= i < index ==> tail[i] == rest[i]
      invariant forall i :: index <= i < 128 ==> tail[i] == 0
    {
      tail[index] := rest[index];
    }
    tail[|rest|] := 0x80;
    finalSize := if |rest| < 56 then 64 else 128;
    WriteLength(tail, finalSize - 8, bitLength);
    TailParts(tail[..finalSize], rest, BigEndian(8, bitLength));
  }

  method WriteLength(tail: array<U8>, offset: nat, bitLength: U64)
    requires offset + 8 <= tail.Length
    modifies tail
    ensures forall i :: 0 <= i < 8 ==> tail[offset + i] == BigEndian(8, bitLength)[i]
    ensures forall i :: 0 <= i < tail.Length && !(offset <= i < offset + 8) ==> tail[i] == old(tail[i])
  {
    var shifts := [7, 6, 5, 4, 3, 2, 1, 0];
    for index := 0 to 8
      invariant forall i :: 0 <= i < index ==> tail[offset + i] == BigEndian(8, bitLength)[i]
      invariant forall i :: 0 <= i < tail.Length && !(offset <= i < offset + 8) ==> tail[i] == old(tail[i])
    {
      BigEndianAt(8, bitLength, index);
      tail[offset + index] := bitLength / Pow256(shifts[index]) % 256;
    }
  }

  lemma TailParts(t: ByteString, rest: ByteString, field: ByteString)
    requires |field| == 8 && |rest| + 9 <= |t|
    requires forall i :: 0 <= i < |rest| ==> t[i] == rest[i]
    requires t[|rest|] == 0x80
    requires forall i :: |rest| < i < |t| - 8 ==> t[i] == 0
    requires forall i :: 0 <= i < 8 ==> t[|t| - 8 + i] == field[i]
    ensures t == rest + [0x80] + Zeros(|t| - |rest| - 9) + field
  {
    assert t[|t| - 8..] == field;
  }

  lemma ZerosSplit(n: nat, consumed: nat, finalSize: nat)
    requires consumed == n / 64 * 64
    requires finalSize == if n - consumed < 56 then 64 else 128
    ensures consumed <= n && n - consumed < 64
    ensures ZeroCount(n) == finalSize - (n - consumed) - 9
  {
    var q := n / 64;
    assert n == 64 * q + n % 64;
  }

  lemma PadSplits(m: ByteString, consumed: nat, finalSize: nat)
    requires consumed <= |m| && 9 <= finalSize - (|m| - consumed)
    requires ZeroCount(|m|) == finalSize - (|m| - consumed) - 9
    ensures Pad(m) == m[..consumed] + (m[consumed..] + [0x80] + Zeros(finalSize - (|m| - consumed) - 9) + BigEndian(8, 8 * |m|))
  {
    hide ZeroCount, Zeros, BigEndian;
    assert m == m[..consumed] + m[consumed..];
    Regroup(m[..consumed], m[consumed..], [0x80], Zeros(ZeroCount(|m|)), BigEndian(8, 8 * |m|));
  }

  lemma Regroup(a: ByteString, b: ByteString, c: ByteString, d: ByteString, e: ByteString)
    ensures (a + b) + c + d + e == a + (b + c + d + e)
  {
  }

  /** What the tail adds to the complete blocks, for a message of `n` bytes that ends in `rest`. */
  function Padding(rest: ByteString, bitLength: U64): ByteString
    requires |rest| < 64
  {
    rest + [0x80] + Zeros((if |rest| < 56 then 64 else 128) - |rest| - 9) + BigEndian(8, bitLength)
  }

  method HashTail(rest: ByteString, bitLength: U64, state: array<Word>)
    requires |rest| < 64 && state.Length == 8
    modifies state
    ensures StateOf(state[..]) == HashBlocks(old(StateOf(state[..])), Padding(rest, bitLength))
  {
    hide Compress, HashBlocks, BigEndian, Zeros, StateOf;
    var tail := new U8[128](_ => 0);
    var finalSize := FillTail(rest, bitLength, tail);
    ghost var middle, padding := StateOf(state[..]), tail[..finalSize];
    assert padding[..64] == tail[..64];
    assert finalSize == 128 ==> padding[64..128] == tail[64..128];
    ProcessBlock(tail[..64], state);
    if finalSize == 128 {
      ProcessBlock(tail[64..128], state);
    }
    TailBlocks(middle, padding, StateOf(state[..]));
  }

  lemma PadIsPadding(m: ByteString)
    requires |m| < 0x2000_0000_0000_0000
    ensures 0 <= |m| / 64 * 64 <= |m| && |m| - |m| / 64 * 64 < 64
    ensures Pad(m) == m[..|m| / 64 * 64] + Padding(m[|m| / 64 * 64..], 8 * |m|)
  {
    hide ZeroCount, Zeros, BigEndian, Pad;
    var consumed := |m| / 64 * 64;
    var finalSize := if |m| - consumed < 56 then 64 else 128;
    ZerosSplit(|m|, consumed, finalSize);
    PadSplits(m, consumed, finalSize);
  }

  /** Complete blocks, then the tail: together they hash the padded message. */
  lemma BlocksThenTail(m: ByteString, consumed: nat, end: Vars)
    requires |m| < 0x2000_0000_0000_0000 && consumed == |m| / 64 * 64 <= |m| && |m| - consumed < 64
    requires end == HashBlocks(HashBlocks(INITIAL_HASH, m[..consumed]), Padding(m[consumed..], 8 * |m|))
    ensures end == HashBlocks(INITIAL_HASH, Pad(m))
  {
    hide Compress, HashBlocks, Pad, Padding;
    PadIsPadding(m);
    HashBlocksSplit(INITIAL_HASH, m[..consumed], Padding(m[consumed..], 8 * |m|));
  }

  /** The 64-bit product wraps only where the standard sets no digest. */
  function BitLength(n: nat): (r: U64)
    ensures n < 0x2000_0000_0000_0000 ==> r == 8 * n
  {
    n * 8 % TWO_64
  }

  method InitialState() returns (state: array<Word>)
    ensures fresh(state) && state.Length == 8
    ensures StateOf(state[..]) == INITIAL_HASH
  {
    state := new Word[] [
      0x6a09e667, 0xbb67ae85, 0x3c6ef372, 0xa54ff53a, 0x510e527f, 0x9b05688c, 0x1f83d9ab, 0x5be0cd19];
  }

  /** For every message below 2^61 bytes the implementation computes the digest of the standard. */
  method Compute(bytes: ByteString) returns (digest: Digest)
    requires |bytes| < TWO_64
    ensures |bytes| < 0x2000_0000_0000_0000 ==> digest == Hash(bytes)
  {
    hide Compress, HashBlocks, Pad, DigestOf, Padding, StateOf, BitLength;
    var state := InitialState();
    var consumed := HashCompleteBlocks(bytes, state);
    HashTail(bytes[consumed..], BitLength(|bytes|), state);
    if |bytes| < 0x2000_0000_0000_0000 {
      BlocksThenTail(bytes, consumed, StateOf(state[..]));
    }
    digest := WriteDigest(state[..]);
  }

  lemma TailBlocks(hash: Vars, padding: ByteString, end: Vars)
    requires |padding| == 64 || |padding| == 128
    requires |padding| == 64 ==> end == Compress(hash, padding[..64])
    requires |padding| == 128 ==> end == Compress(Compress(hash, padding[..64]), padding[64..128])
    ensures end == HashBlocks(hash, padding)
  {
    hide Compress;
    if |padding| == 64 {
      assert padding[..64] == padding;
      HashOneBlock(hash, padding);
    } else {
      assert padding[64..128] == padding[64..];
      HashOneBlock(Compress(hash, padding[..64]), padding[64..]);
    }
  }

  method WriteDigest(state: seq<Word>) returns (digest: Digest)
    requires |state| == 8
    ensures digest == DigestOf(StateOf(state))
  {
    hide BytesOfU32;
    var output: ByteString := [];
    for index := 0 to 8
      invariant output == BytesOfWords(state[..index])
    {
      assert state[..index + 1] == state[..index] + [state[index]];
      output := output + BytesOfU32(state[index]);
    }
    assert state[..8] == state == WordsOf(StateOf(state));
    digest := output;
  }
}
