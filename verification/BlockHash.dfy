/** What SHA-1 and MD5 share: absorbing a message in 64-byte blocks, the two-word
    bit counter, and the padding that completes the last block. */
module BlockHash {
  import opened Sequences

  type Block = b: seq<bv8> | |b| == 64 witness seq(64, _ => 0)

  type word = n: int | 0 <= n < 0x1_0000_0000

  const WORD_COUNT: int := 0x1_0000_0000

  /** The chaining value after all complete blocks of m. */
  function Absorb<S>(f: (S, Block) -> S, s: S, m: seq<bv8>): S
    decreases |m|
  {
    if |m| < 64 then s else Absorb(f, f(s, m[..64]), m[64..])
  }

  lemma {:induction false} AbsorbAppend<S>(f: (S, Block) -> S, s: S, a: seq<bv8>, b: seq<bv8>)
    requires |a| % 64 == 0
    ensures Absorb(f, s, a + b) == Absorb(f, Absorb(f, s, a), b)
    decreases |a|
  {
    if a == [] {
      assert a + b == b;
    } else {
      assert (a + b)[..64] == a[..64] && (a + b)[64..] == a[64..] + b;
      AbsorbAppend(f, f(s, a[..64]), a[64..], b);
    }
  }

  /** One more block behind complete ones. */
  lemma AbsorbBlock<S>(f: (S, Block) -> S, s: S, a: seq<bv8>, b: Block)
    requires |a| % 64 == 0
    ensures Absorb(f, s, a + b) == f(Absorb(f, s, a), b)
  {
    AbsorbAppend(f, s, a, b);
    assert b[..64] == b && |b[64..]| < 64;
  }

  function Complete(n: nat): (k: nat)
    ensures k <= n < k + 64 && k % 64 == 0
  {
    n - n % 64
  }

  lemma CompleteIs(n: nat, k: nat)
    requires k <= n < k + 64 && k % 64 == 0
    ensures Complete(n) == k && n % 64 == n - k
  {
  }

  /** An incomplete block at the end has no effect yet. */
  lemma AbsorbIncomplete<S>(f: (S, Block) -> S, s: S, a: seq<bv8>, b: seq<bv8>)
    requires |a| % 64 == 0 && |b| < 64
    ensures Absorb(f, s, a + b) == Absorb(f, s, a)
  {
    AbsorbAppend(f, s, a, b);
  }

  /** Completing the block that m leaves open. */
  lemma FillBlock<S>(f: (S, Block) -> S, s: S, m: seq<bv8>, d: seq<bv8>)
    requires |m| % 64 + |d| == 64
    ensures Absorb(f, s, m + d) == f(Absorb(f, s, m), m[Complete(|m|)..] + d)
  {
    hide Absorb, Complete;
    var c := Complete(|m|);
    CompleteIs(|m|, c);
    assert m == m[..c] + m[c..];
    AbsorbIncomplete(f, s, m[..c], m[c..]);
    ConcatAssociative(m[..c], m[c..], d);
    AbsorbBlock(f, s, m[..c], m[c..] + d);
  }

  /** Bytes that do not complete the block that m leaves open. */
  lemma StillOpen<S>(f: (S, Block) -> S, s: S, m: seq<bv8>, d: seq<bv8>)
    requires |m| % 64 + |d| < 64
    ensures Absorb(f, s, m + d) == Absorb(f, s, m)
    ensures Complete(|m + d|) == Complete(|m|) && (m + d)[Complete(|m|)..] == m[Complete(|m|)..] + d
  {
    hide Absorb, Complete;
    var c := Complete(|m|);
    CompleteIs(|m|, c);
    CompleteIs(|m + d|, c);
    assert m == m[..c] + m[c..];
    AbsorbIncomplete(f, s, m[..c], m[c..]);
    ConcatAssociative(m[..c], m[c..], d);
    AbsorbIncomplete(f, s, m[..c], m[c..] + d);
    assert (m + d)[c..] == m[c..] + d;
  }

  /** One more whole block of the data behind m. */
  lemma NextBlock<S>(f: (S, Block) -> S, s: S, m: seq<bv8>, d: seq<bv8>, i: nat)
    requires i + 64 <= |d| && (|m| + i) % 64 == 0
    ensures Absorb(f, s, m + d[..i + 64]) == f(Absorb(f, s, m + d[..i]), d[i..i + 64])
  {
    hide Absorb;
    assert d[..i + 64] == d[..i] + d[i..i + 64];
    ConcatAssociative(m, d[..i], d[i..i + 64]);
    AbsorbBlock(f, s, m + d[..i], d[i..i + 64]);
  }

  /** What is left of the data once no whole block remains. */
  lemma LastPart<S>(f: (S, Block) -> S, s: S, m: seq<bv8>, d: seq<bv8>, i: nat)
    requires i <= |d| < i + 64 && (|m| + i) % 64 == 0
    ensures Absorb(f, s, m + d) == Absorb(f, s, m + d[..i])
    ensures Complete(|m + d|) == |m| + i && (m + d)[|m| + i..] == d[i..]
  {
    hide Absorb, Complete;
    CompleteIs(|m + d|, |m| + i);
    assert d == d[..i] + d[i..];
    ConcatAssociative(m, d[..i], d[i..]);
    AbsorbIncomplete(f, s, m + d[..i], d[i..]);
    CutSecond(m, d, i);
  }

  // ----- 32-bit words -----

  function Add(x: bv32, y: bv32): bv32 {
    x + y
  }

  /** The circular left shift. */
  function Rotl(x: bv32, n: bv6): bv32
    requires n <= 32
  {
    (x << n) | (x >> (32 - n))
  }

  /** Which byte of a word comes first. */
  datatype ByteOrder = LowFirst | HighFirst

  function LittleEndian(b0: bv8, b1: bv8, b2: bv8, b3: bv8): bv32 {
    b0 as bv32 | (b1 as bv32 << 8) | (b2 as bv32 << 16) | (b3 as bv32 << 24)
  }

  function BigEndian(b0: bv8, b1: bv8, b2: bv8, b3: bv8): bv32 {
    (b0 as bv32 << 24) | (b1 as bv32 << 16) | (b2 as bv32 << 8) | b3 as bv32
  }

  /** Byte k of a word, counting from the least significant. */
  function ByteAt(x: bv32, k: nat): bv8
    requires k < 4
  {
    var shifted := if k == 0 then x else if k == 1 then x >> 8 else if k == 2 then x >> 16 else x >> 24;
    (shifted & 255) as bv8
  }

  /** The byte of a word that stands at position k. */
  function Place(order: ByteOrder, k: nat): (p: nat)
    requires k < 4
    ensures p < 4
  {
    if order.LowFirst? then k else 3 - k
  }

  function WordBytes(order: ByteOrder, x: bv32): (b: seq<bv8>)
    ensures |b| == 4 && forall k | 0 <= k < 4 :: b[k] == ByteAt(x, Place(order, k))
  {
    hide ByteAt;
    seq(4, k requires 0 <= k < 4 => ByteAt(x, Place(order, k)))
  }

  function Serialize(order: ByteOrder, words: seq<bv32>): (b: seq<bv8>)
    ensures |b| == 4 * |words|
  {
    if words == [] then [] else WordBytes(order, words[0]) + Serialize(order, words[1..])
  }

  /** Every byte of a serialized list of words is where a loop over it looks. */
  lemma {:induction false} SerializedAt(order: ByteOrder, words: seq<bv32>, i: nat)
    requires i < 4 * |words|
    ensures Serialize(order, words)[i] == ByteAt(words[i / 4], Place(order, i % 4))
  {
    hide ByteAt, Place;
    if i >= 4 {
      SerializedAt(order, words[1..], i - 4);
      assert words[i / 4] == words[1..][(i - 4) / 4];
    }
  }

  // ----- bit masks -----

  /** n & mask, one binary digit at a time. */
  function And(n: nat, mask: nat): (r: nat)
    ensures r <= n && r <= mask
    decreases mask, n
  {
    if mask == 0 then 0 else (if n % 2 == 1 && mask % 2 == 1 then 1 else 0) + 2 * And(n / 2, mask / 2)
  }

  lemma AndOdd(n: nat, mask: nat)
    ensures And(n, 2 * mask + 1) == n % 2 + 2 * And(n / 2, mask)
  {
    assert (2 * mask + 1) / 2 == mask;
  }

  lemma AndEven(n: nat, mask: nat)
    ensures And(n, 2 * mask) == 2 * And(n / 2, mask)
  {
    assert 2 * mask / 2 == mask;
  }

  lemma AndThreeOdd(n: nat, mask: nat)
    ensures And(n, 8 * mask + 7) == n % 8 + 8 * And(n / 8, mask)
  {
    hide And;
    AndOdd(n, 4 * mask + 3);
    AndOdd(n / 2, 2 * mask + 1);
    AndOdd(n / 4, mask);
  }

  /** The position in the buffer: six binary digits. */
  lemma And63(n: nat)
    ensures And(n, 63) == n % 64
  {
    hide And;
    AndThreeOdd(n, 7);
    AndThreeOdd(n / 8, 0);
    AndZero(n / 64);
  }

  lemma AndZero(n: nat)
    ensures And(n, 0) == 0
  {
  }

  /** The mask of the padding loop's test: eight times the position. */
  lemma And504(n: nat)
    ensures And(n, 504) == n / 8 % 64 * 8
  {
    hide And;
    AndEven(n, 252);
    AndEven(n / 2, 126);
    AndEven(n / 4, 63);
    And63(n / 8);
  }

  // ----- the bit counter -----

  /** count[0] += len << 3 with carry into count[1], then count[1] += len >> 29. */
  function CountUp(lo: word, hi: word, len: word): (word, word) {
    var bits := len * 8 % WORD_COUNT;
    var lo' := (lo + bits) % WORD_COUNT;
    var hi' := if lo' < bits then (hi + 1) % WORD_COUNT else hi;
    (lo', (hi' + len / 0x2000_0000) % WORD_COUNT)
  }

  /** The two words together are 8 times the number of bytes, modulo 2^64. */
  predicate Counts(lo: word, hi: word, bytes: nat) {
    hi * WORD_COUNT + lo == 8 * bytes % (WORD_COUNT * WORD_COUNT)
  }

  lemma CountUpCounts(lo: word, hi: word, bytes: nat, len: word)
    requires Counts(lo, hi, bytes)
    ensures var c := CountUp(lo, hi, len); Counts(c.0, c.1, bytes + len)
  {
    hide CountUp;
    var c := CountUp(lo, hi, len);
    var wraps := CountUpValue(lo, hi, len);
    var q := 8 * bytes / (WORD_COUNT * WORD_COUNT);
    SameRemainder(8 * (bytes + len), q + wraps, c.1 * WORD_COUNT + c.0);
  }

  lemma SameRemainder(x: nat, q: int, r: int)
    requires x == q * (WORD_COUNT * WORD_COUNT) + r && 0 <= r < WORD_COUNT * WORD_COUNT
    ensures x % (WORD_COUNT * WORD_COUNT) == r
  {
  }

  /** The counter as a number: it grows by len * 8 and may wrap. */
  lemma CountUpValue(lo: word, hi: word, len: word) returns (wraps: nat)
    ensures var c := CountUp(lo, hi, len);
      c.1 * WORD_COUNT + c.0 == hi * WORD_COUNT + lo + len * 8 - wraps * (WORD_COUNT * WORD_COUNT)
  {
    var top, bits := len / 0x2000_0000, len * 8 % WORD_COUNT;
    assert len * 8 == top * WORD_COUNT + bits;
    var carry := (lo + bits) / WORD_COUNT;
    assert CountUp(lo, hi, len).0 == lo + bits - carry * WORD_COUNT;
    assert carry == if (lo + bits) % WORD_COUNT < bits then 1 else 0;
    wraps := (hi + carry + top) / WORD_COUNT;
    assert CountUp(lo, hi, len).1 == hi + carry + top - wraps * WORD_COUNT;
  }

  /** The position in the buffer is read off the low word. */
  lemma CountIndex(lo: word, hi: word, bytes: nat)
    requires Counts(lo, hi, bytes)
    ensures lo / 8 % 64 == bytes % 64
  {
    var z := 8 * bytes / (WORD_COUNT * WORD_COUNT) * 0x80_0000_0000_0000 + hi * 0x80_0000;
    assert 8 * bytes == 8 * (64 * z) + lo;
    SameSixBits(bytes, z, lo / 8);
  }

  lemma SameSixBits(x: nat, z: nat, r: nat)
    requires x == 64 * z + r
    ensures x % 64 == r % 64
  {
  }

  // ----- padding -----

  function Zeros(n: nat): (z: seq<bv8>)
    ensures |z| == n
  {
    seq(n, _ => 0)
  }

  /** The fewest zeros that bring n bytes and the 0x80 to 56 modulo 64. */
  function PadZeros(n: nat): (k: nat)
    ensures k < 64 && (n + 1 + k) % 64 == 56
  {
    (119 - n % 64) % 64
  }

  /** The message, one 1 bit, zero bits, and eight bytes of length. */
  function Padded(m: seq<bv8>, length: seq<bv8>): (p: seq<bv8>)
    requires |length| == 8
    ensures |p| % 64 == 0
  {
    m + [0x80] + Zeros(PadZeros(|m|)) + length
  }

  /** While zeros are appended one by one, the padding is complete exactly when the
      position is 56, and that happens first at PadZeros. */
  lemma PaddingStops(n: nat, k: nat)
    requires k <= PadZeros(n)
    ensures (n + 1 + k) % 64 == 56 <==> k == PadZeros(n)
  {
  }

  lemma OneMoreZero(m: seq<bv8>, k: nat)
    ensures m + Zeros(k) + [0] == m + Zeros(k + 1)
  {
  }

  /** Digit i of a number in base 256, counting from the least significant. */
  function DigitOf(n: word, i: nat): (d: nat)
    requires i < 4
    ensures d < 256
  {
    match i
    case 0 => n % 256
    case 1 => n / 0x100 % 256
    case 2 => n / 0x1_0000 % 256
    case 3 => n / 0x100_0000 % 256
  }

  function ByteOf(n: word, i: nat): bv8
    requires i < 4
  {
    DigitOf(n, i) as bv8
  }

  /** The digits stand for the number. */
  lemma DigitsSum(n: word)
    ensures DigitOf(n, 0) + 0x100 * DigitOf(n, 1) + 0x1_0000 * DigitOf(n, 2) + 0x100_0000 * DigitOf(n, 3) == n
  {
    assert n / 0x100 == n / 0x1_0000 * 256 + n / 0x100 % 256;
    assert n / 0x1_0000 == n / 0x100_0000 * 256 + n / 0x1_0000 % 256;
  }

  function NumberBytes(order: ByteOrder, n: word): (b: seq<bv8>)
    ensures |b| == 4 && forall k | 0 <= k < 4 :: b[k] == ByteOf(n, Place(order, k))
  {
    hide ByteOf;
    seq(4, k requires 0 <= k < 4 => ByteOf(n, Place(order, k)))
  }

  function LowWord(bytes: nat): word {
    8 * bytes % WORD_COUNT
  }

  function HighWord(bytes: nat): word {
    8 * bytes / WORD_COUNT % WORD_COUNT
  }

  /** The counter words of a message are the words of its bit length. */
  lemma CountWords(lo: word, hi: word, bytes: nat)
    requires Counts(lo, hi, bytes)
    ensures lo == LowWord(bytes) && hi == HighWord(bytes)
  {
  }

  /** Together they are the bit length modulo 2^64. */
  lemma WordsOfLength(bytes: nat)
    ensures HighWord(bytes) * WORD_COUNT + LowWord(bytes) == 8 * bytes % (WORD_COUNT * WORD_COUNT)
  {
  }
}
