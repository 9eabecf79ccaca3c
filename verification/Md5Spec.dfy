/** The MD5 message-digest algorithm, RFC 1321: padding (sections 3.1 and 3.2),
    initial values (3.3), the 64 steps (3.4) and the output (3.5). */
module Md5Spec {
  import opened BlockHash

  datatype Regs = Regs(a: bv32, b: bv32, c: bv32, d: bv32)

  const IV := Regs(0x67452301, 0xefcdab89, 0x98badcfe, 0x10325476)

  function F(x: bv32, y: bv32, z: bv32): bv32 { (x & y) | (!x & z) }

  function G(x: bv32, y: bv32, z: bv32): bv32 { (x & z) | (y & !z) }

  function H(x: bv32, y: bv32, z: bv32): bv32 { x ^ y ^ z }

  function I(x: bv32, y: bv32, z: bv32): bv32 { y ^ (x | !z) }

  /** The auxiliary function of step i, counted from zero. */
  function Aux(i: nat, x: bv32, y: bv32, z: bv32): bv32 {
    if i < 16 then F(x, y, z) else if i < 32 then G(x, y, z) else if i < 48 then H(x, y, z) else I(x, y, z)
  }

  /** The input word of step i. */
  function Index(i: nat): (k: nat)
    ensures k < 16
  {
    if i < 16 then i % 16 else if i < 32 then (5 * i + 1) % 16 else if i < 48 then (3 * i + 5) % 16 else 7 * i % 16
  }

  function Pick(k: nat, s0: bv6, s1: bv6, s2: bv6, s3: bv6): bv6 {
    if k == 0 then s0 else if k == 1 then s1 else if k == 2 then s2 else s3
  }

  /** The rotation of step i. */
  function Shift(i: nat): (s: bv6)
    ensures s <= 32
  {
    if i < 16 then Pick(i % 4, 7, 12, 17, 22)
    else if i < 32 then Pick(i % 4, 5, 9, 14, 20)
    else if i < 48 then Pick(i % 4, 4, 11, 16, 23)
    else Pick(i % 4, 6, 10, 15, 21)
  }

  // The table T[1 ... 64], one function a round.

  function T1(k: nat): bv32 {
    if k == 0 then 0xd76aa478
    else if k == 1 then 0xe8c7b756
    else if k == 2 then 0x242070db
    else if k == 3 then 0xc1bdceee
    else if k == 4 then 0xf57c0faf
    else if k == 5 then 0x4787c62a
    else if k == 6 then 0xa8304613
    else if k == 7 then 0xfd469501
    else if k == 8 then 0x698098d8
    else if k == 9 then 0x8b44f7af
    else if k == 10 then 0xffff5bb1
    else if k == 11 then 0x895cd7be
    else if k == 12 then 0x6b901122
    else if k == 13 then 0xfd987193
    else if k == 14 then 0xa679438e
    else 0x49b40821
  }

  function T2(k: nat): bv32 {
    if k == 0 then 0xf61e2562
    else if k == 1 then 0xc040b340
    else if k == 2 then 0x265e5a51
    else if k == 3 then 0xe9b6c7aa
    else if k == 4 then 0xd62f105d
    else if k == 5 then 0x2441453
    else if k == 6 then 0xd8a1e681
    else if k == 7 then 0xe7d3fbc8
    else if k == 8 then 0x21e1cde6
    else if k == 9 then 0xc33707d6
    else if k == 10 then 0xf4d50d87
    else if k == 11 then 0x455a14ed
    else if k == 12 then 0xa9e3e905
    else if k == 13 then 0xfcefa3f8
    else if k == 14 then 0x676f02d9
    else 0x8d2a4c8a
  }

  function T3(k: nat): bv32 {
    if k == 0 then 0xfffa3942
    else if k == 1 then 0x8771f681
    else if k == 2 then 0x6d9d6122
    else if k == 3 then 0xfde5380c
    else if k == 4 then 0xa4beea44
    else if k == 5 then 0x4bdecfa9
    else if k == 6 then 0xf6bb4b60
    else if k == 7 then 0xbebfbc70
    else if k == 8 then 0x289b7ec6
    else if k == 9 then 0xeaa127fa
    else if k == 10 then 0xd4ef3085
    else if k == 11 then 0x4881d05
    else if k == 12 then 0xd9d4d039
    else if k == 13 then 0xe6db99e5
    else if k == 14 then 0x1fa27cf8
    else 0xc4ac5665
  }

  function T4(k: nat): bv32 {
    if k == 0 then 0xf4292244
    else if k == 1 then 0x432aff97
    else if k == 2 then 0xab9423a7
    else if k == 3 then 0xfc93a039
    else if k == 4 then 0x655b59c3
    else if k == 5 then 0x8f0ccc92
    else if k == 6 then 0xffeff47d
    else if k == 7 then 0x85845dd1
    else if k == 8 then 0x6fa87e4f
    else if k == 9 then 0xfe2ce6e0
    else if k == 10 then 0xa3014314
    else if k == 11 then 0x4e0811a1
    else if k == 12 then 0xf7537e82
    else if k == 13 then 0xbd3af235
    else if k == 14 then 0x2ad7d2bb
    else 0xeb86d391
  }

  function T(i: nat): bv32 {
    if i < 16 then T1(i) else if i < 32 then T2(i - 16) else if i < 48 then T3(i - 32) else T4(i - 48)
  }

  /** b + ((a + f + X[k] + T[i]) <<< s). */
  function Mixed(a: bv32, b: bv32, f: bv32, x: bv32, t: bv32, s: bv6): bv32
    requires s <= 32
  {
    b + Rotl(a + f + x + t, s)
  }

  function X(block: Block, k: nat): bv32
    requires k < 16
  {
    LittleEndian(block[4 * k], block[4 * k + 1], block[4 * k + 2], block[4 * k + 3])
  }

  /** Step i; afterwards the register just written is named second. */
  function Step(r: Regs, i: nat, block: Block): Regs {
    Regs(r.d, Mixed(r.a, r.b, Aux(i, r.b, r.c, r.d), X(block, Index(i)), T(i), Shift(i)), r.b, r.c)
  }

  function Rounds(h: Regs, block: Block, i: nat): Regs
    decreases i, block
  {
    if i == 0 then h else Step(Rounds(h, block, i - 1), i - 1, block)
  }

  function Plus(h: Regs, r: Regs): Regs {
    Regs(Add(h.a, r.a), Add(h.b, r.b), Add(h.c, r.c), Add(h.d, r.d))
  }

  function Compress(h: Regs, block: Block): Regs {
    Plus(h, Rounds(h, block, 64))
  }

  /** The bit length modulo 2^64, low word first, least significant byte first. */
  function LengthBytes(bytes: nat): (b: seq<bv8>)
    ensures |b| == 8
  {
    NumberBytes(LowFirst, LowWord(bytes)) + NumberBytes(LowFirst, HighWord(bytes))
  }

  /** What the eight bytes say: two words, and together the bit length modulo 2^64. */
  lemma LengthValue(bytes: nat) returns (hi: word, lo: word)
    ensures hi * 0x1_0000_0000 + lo == 8 * bytes % 0x1_0000_0000_0000_0000
    ensures LengthBytes(bytes)
      == [ByteOf(lo, 0), ByteOf(lo, 1), ByteOf(lo, 2), ByteOf(lo, 3),
          ByteOf(hi, 0), ByteOf(hi, 1), ByteOf(hi, 2), ByteOf(hi, 3)]
  {
    hide ByteOf, HighWord, LowWord;
    hi, lo := HighWord(bytes), LowWord(bytes);
    WordsOfLength(bytes);
  }

  function RegsBytes(r: Regs): (b: seq<bv8>)
    ensures |b| == 16
  {
    Serialize(LowFirst, [r.a, r.b, r.c, r.d])
  }

  function Digest(m: seq<bv8>): (d: seq<bv8>)
    ensures |d| == 16
  {
    RegsBytes(Absorb(Compress, IV, Padded(m, LengthBytes(|m|))))
  }
}
