/** The Secure Hash Standard, FIPS PUB 180-1: padding (section 4), functions
    (section 5), constants (section 6) and the computation with 80 words
    (section 7). */
module Sha1Spec {
  import opened BlockHash

  datatype Regs = Regs(a: bv32, b: bv32, c: bv32, d: bv32, e: bv32)

  const IV := Regs(0x67452301, 0xEFCDAB89, 0x98BADCFE, 0x10325476, 0xC3D2E1F0)

  function F(t: nat, b: bv32, c: bv32, d: bv32): bv32 {
    if t < 20 then (b & c) | (!b & d)
    else if t < 40 then b ^ c ^ d
    else if t < 60 then (b & c) | (b & d) | (c & d)
    else b ^ c ^ d
  }

  function K(t: nat): bv32 {
    if t < 20 then 0x5A827999 else if t < 40 then 0x6ED9EBA1 else if t < 60 then 0x8F1BBCDC else 0xCA62C1D6
  }

  function InputWord(block: Block, t: nat): bv32
    requires t < 16
  {
    BigEndian(block[4 * t], block[4 * t + 1], block[4 * t + 2], block[4 * t + 3])
  }

  /** The word W_t of section 7, step b. */
  function W(block: Block, t: nat): bv32
    decreases t, block
  {
    if t < 16 then InputWord(block, t)
    else Rotl(W(block, t - 3) ^ W(block, t - 8) ^ W(block, t - 14) ^ W(block, t - 16), 1)
  }

  function Temp(a: bv32, f: bv32, e: bv32, w: bv32, k: bv32): bv32 {
    Rotl(a, 5) + f + e + w + k
  }

  /** Section 7, step d: TEMP, then E = D; D = C; C = S^30(B); B = A; A = TEMP. */
  function Step(r: Regs, t: nat, w: bv32): Regs {
    Regs(Temp(r.a, F(t, r.b, r.c, r.d), r.e, w, K(t)), r.a, Rotl(r.b, 30), r.c, r.d)
  }

  /** The registers after t of the 80 steps. */
  function Rounds(h: Regs, block: Block, t: nat): Regs
    decreases t, block
  {
    if t == 0 then h else Step(Rounds(h, block, t - 1), t - 1, W(block, t - 1))
  }

  /** Section 7, step e. */
  function Plus(h: Regs, r: Regs): Regs {
    Regs(Add(h.a, r.a), Add(h.b, r.b), Add(h.c, r.c), Add(h.d, r.d), Add(h.e, r.e))
  }

  function Compress(h: Regs, block: Block): Regs {
    Plus(h, Rounds(h, block, 80))
  }

  /** Section 4: the bit length in two words, high word first, most significant
      byte first. A length of 2^64 bits or more is taken modulo 2^64. */
  function LengthBytes(bytes: nat): (b: seq<bv8>)
    ensures |b| == 8
  {
    NumberBytes(HighFirst, HighWord(bytes)) + NumberBytes(HighFirst, LowWord(bytes))
  }

  /** What the eight bytes say: two words, and together the bit length modulo 2^64. */
  lemma LengthValue(bytes: nat) returns (hi: word, lo: word)
    ensures hi * 0x1_0000_0000 + lo == 8 * bytes % 0x1_0000_0000_0000_0000
    ensures LengthBytes(bytes)
      == [ByteOf(hi, 3), ByteOf(hi, 2), ByteOf(hi, 1), ByteOf(hi, 0),
          ByteOf(lo, 3), ByteOf(lo, 2), ByteOf(lo, 1), ByteOf(lo, 0)]
  {
    hide ByteOf, HighWord, LowWord;
    hi, lo := HighWord(bytes), LowWord(bytes);
    WordsOfLength(bytes);
  }

  function RegsBytes(r: Regs): (b: seq<bv8>)
    ensures |b| == 20
  {
    Serialize(HighFirst, [r.a, r.b, r.c, r.d, r.e])
  }

  /** The message digest of m. */
  function Digest(m: seq<bv8>): (d: seq<bv8>)
    ensures |d| == 20
  {
    RegsBytes(Absorb(Compress, IV, Padded(m, LengthBytes(|m|))))
  }

  lemma LengthByteAt(bytes: nat, i: nat)
    requires i < 8
    ensures LengthBytes(bytes)[i] == ByteOf(if i >= 4 then LowWord(bytes) else HighWord(bytes), 3 - i % 4)
  {
    hide ByteOf, LowWord, HighWord;
    var n := if i >= 4 then LowWord(bytes) else HighWord(bytes);
    assert LengthBytes(bytes)[i] == NumberBytes(HighFirst, n)[i % 4];
  }
}
