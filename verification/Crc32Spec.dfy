/** The CRC-32 of RFC 1952, section 8, computed one bit at a time: low bit first,
    with the reflected polynomial. */
module Crc32Spec {

  const REFLECTED_POLYNOMIAL: bv32 := 0xEDB88320

  // Word operations, named so that proofs can treat them as opaque.

  function Xor(x: bv32, y: bv32): bv32 { x ^ y }

  function Half(x: bv32): bv32 { x >> 1 }

  function Double(x: bv32): bv32 { x << 1 }

  predicate Odd(x: bv32) { x & 1 != 0 }

  /** One bit: shift right, and subtract the polynomial when a 1 falls out. */
  function Shift(c: bv32): bv32 {
    if Odd(c) then Xor(REFLECTED_POLYNOMIAL, Half(c)) else Half(c)
  }

  function Shifts(c: bv32, n: nat): bv32
    decreases n, c
  {
    if n == 0 then c else Shifts(Shift(c), n - 1)
  }

  /** One byte of the message: eight bits. */
  function UpdateByte(c: bv32, b: bv8): bv32 {
    Shifts(Xor(c, b as bv32), 8)
  }

  function UpdateCrc(c: bv32, bytes: seq<bv8>): bv32
    decreases |bytes|
  {
    if bytes == [] then c else UpdateCrc(UpdateByte(c, bytes[0]), bytes[1..])
  }

  /** The CRC of a whole message, pre- and post-conditioned. */
  function Crc(bytes: seq<bv8>): bv32 {
    Xor(UpdateCrc(0xFFFFFFFF, bytes), 0xFFFFFFFF)
  }

  /** Running over a and then b is running over a + b. */
  lemma {:induction false} UpdateConcat(c: bv32, a: seq<bv8>, b: seq<bv8>)
    ensures UpdateCrc(c, a + b) == UpdateCrc(UpdateCrc(c, a), b)
    decreases |a|
  {
    hide UpdateByte;
    if a == [] {
      assert a + b == b;
    } else {
      assert (a + b)[1..] == a[1..] + b;
      UpdateConcat(UpdateByte(c, a[0]), a[1..], b);
    }
  }

  // ----- the algebra of one step -----

  /** Two registers with the same successor are equal: the top bit of the
      polynomial tells whether it was subtracted. */
  lemma ShiftInjective(x: bv32, y: bv32)
    requires Shift(x) == Shift(y)
    ensures x == y
  {
  }

  lemma {:induction false} ShiftsInjective(x: bv32, y: bv32, n: nat)
    requires Shifts(x, n) == Shifts(y, n)
    ensures x == y
    decreases n
  {
    if n > 0 {
      hide Shift;
      ShiftsInjective(Shift(x), Shift(y), n - 1);
      ShiftInjective(x, y);
    }
  }

  lemma XorCancels(x: bv32, y: bv32, z: bv32)
    ensures Xor(x, z) == Xor(y, z) ==> x == y
    ensures Xor(z, x) == Xor(z, y) ==> x == y
  {
  }

  lemma XorAssociative(x: bv32, y: bv32, z: bv32)
    ensures Xor(Xor(x, y), z) == Xor(x, Xor(y, z))
  {
  }

  lemma OddBelow(u: bv32, v: bv32)
    ensures Odd(Xor(u, Double(v))) == Odd(u)
  {
  }

  lemma HalfAbove(u: bv32, v: bv32)
    requires v < 0x80000000
    ensures Half(Xor(u, Double(v))) == Xor(Half(u), v)
  {
  }

  /** Bits above the lowest pass through a step unchanged. */
  lemma ShiftPasses(u: bv32, v: bv32)
    requires v < 0x80000000
    ensures Shift(Xor(u, Double(v))) == Xor(Shift(u), v)
  {
    OddBelow(u, v);
    HalfAbove(u, v);
    XorAssociative(REFLECTED_POLYNOMIAL, Half(u), v);
    hide Odd, Half, Double, Xor;
  }

  /** v shifted left by n, one bit at a time. */
  function Up(v: bv32, n: nat): bv32
    decreases n, v
  {
    if n == 0 then v else Double(Up(v, n - 1))
  }

  lemma UpSmall(v: bv32)
    requires v < 0x1000000
    ensures forall k: nat | k < 8 :: Up(v, k) < 0x80000000
    ensures Up(v, 8) == v << 8
  {
    assert Up(v, 0) == v;
    assert Up(v, 1) == v << 1;
    assert Up(v, 2) == v << 2;
    assert Up(v, 3) == v << 3;
    assert Up(v, 4) == v << 4;
    assert Up(v, 5) == v << 5;
    assert Up(v, 6) == v << 6;
    assert Up(v, 7) == v << 7;
  }

  lemma {:induction false} ShiftsPass(u: bv32, v: bv32, n: nat)
    requires n <= 8 && forall k: nat | k < n :: Up(v, k) < 0x80000000
    ensures Shifts(Xor(u, Up(v, n)), n) == Xor(Shifts(u, n), v)
    decreases n
  {
    if n > 0 {
      hide Shift, Xor, Double;
      ShiftPasses(u, Up(v, n - 1));
      ShiftsPass(Shift(u), v, n - 1);
    }
  }

  /** Eight steps act on the low byte only; the rest moves down and is added. */
  lemma EightShifts(u: bv32, v: bv32)
    requires v < 0x1000000
    ensures Shifts(Xor(u, v << 8), 8) == Xor(Shifts(u, 8), v)
  {
    UpSmall(v);
    hide Shift, Xor, Double;
    ShiftsPass(u, v, 8);
  }

  // ----- error detection -----

  lemma {:induction false} ShiftsAdd(c: bv32, m: nat, n: nat)
    ensures Shifts(c, m + n) == Shifts(Shifts(c, m), n)
    decreases m
  {
    hide Shift;
    if m > 0 {
      ShiftsAdd(Shift(c), m - 1, n);
    }
  }

  /** Up to four bytes as a word, first byte lowest. */
  function LittleWord(bytes: seq<bv8>): (w: bv32)
    requires |bytes| <= 4
    ensures |bytes| <= 3 ==> w < 0x1000000
    ensures |bytes| <= 2 ==> w < 0x10000
    ensures |bytes| <= 1 ==> w < 0x100
    ensures |bytes| == 0 ==> w == 0
  {
    if bytes == [] then 0 else Stack(bytes[0], LittleWord(bytes[1..]))
  }

  function Stack(b: bv8, above: bv32): (w: bv32)
    ensures above < 0x10000 ==> w < 0x1000000
    ensures above < 0x100 ==> w < 0x10000
    ensures above == 0 ==> w < 0x100
  {
    Xor(b as bv32, above << 8)
  }

  lemma StackInjective(b: bv8, v: bv32, b': bv8, v': bv32)
    requires Stack(b, v) == Stack(b', v') && v < 0x1000000 && v' < 0x1000000
    ensures b == b' && v == v'
  {
  }

  lemma {:induction false} LittleWordInjective(a: seq<bv8>, b: seq<bv8>)
    requires |a| == |b| <= 4 && LittleWord(a) == LittleWord(b)
    ensures a == b
  {
    if a != [] {
      hide Stack;
      StackInjective(a[0], LittleWord(a[1..]), b[0], LittleWord(b[1..]));
      LittleWordInjective(a[1..], b[1..]);
      assert a == [a[0]] + a[1..] && b == [b[0]] + b[1..];
    }
  }

  /** Up to four bytes act on the register as one word added before all their steps. */
  lemma {:induction false} WindowState(c: bv32, bytes: seq<bv8>)
    requires |bytes| <= 4
    ensures UpdateCrc(c, bytes) == Shifts(Xor(c, LittleWord(bytes)), 8 * |bytes|)
    decreases |bytes|
  {
    if bytes == [] {
      assert Xor(c, 0) == c;
    } else {
      WindowStep(c, bytes[0], LittleWord(bytes[1..]));
      hide Xor, Stack, Shifts;
      WindowState(UpdateByte(c, bytes[0]), bytes[1..]);
      ShiftsAdd(Xor(c, LittleWord(bytes)), 8, 8 * |bytes[1..]|);
    }
  }

  lemma WindowStep(c: bv32, b: bv8, above: bv32)
    requires above < 0x1000000
    ensures Shifts(Xor(c, Stack(b, above)), 8) == Xor(UpdateByte(c, b), above)
  {
    EightShifts(Xor(c, b as bv32), above);
    XorAssociative(c, b as bv32, above << 8);
    hide Xor, Shifts;
  }

  lemma {:induction false} UpdateInjective(x: bv32, y: bv32, bytes: seq<bv8>)
    requires UpdateCrc(x, bytes) == UpdateCrc(y, bytes)
    ensures x == y
    decreases |bytes|
  {
    if bytes != [] {
      hide Xor, Shifts;
      UpdateInjective(UpdateByte(x, bytes[0]), UpdateByte(y, bytes[0]), bytes[1..]);
      ShiftsInjective(Xor(x, bytes[0] as bv32), Xor(y, bytes[0] as bv32), 8);
      XorCancels(x, y, bytes[0] as bv32);
    }
  }

  /** Every error confined to a window of four bytes is detected: the messages
      agree before position i and from position i + n on, but differ between. */
  lemma BurstDetected(front: seq<bv8>, a: seq<bv8>, b: seq<bv8>, back: seq<bv8>)
    requires |a| == |b| <= 4 && a != b
    ensures Crc(front + a + back) != Crc(front + b + back)
  {
    hide Xor, UpdateCrc, Shifts, LittleWord;
    var c := UpdateCrc(0xFFFFFFFF, front);
    UpdateConcat(0xFFFFFFFF, front + a, back);
    UpdateConcat(0xFFFFFFFF, front, a);
    UpdateConcat(0xFFFFFFFF, front + b, back);
    UpdateConcat(0xFFFFFFFF, front, b);
    if Crc(front + a + back) == Crc(front + b + back) {
      XorCancels(UpdateCrc(UpdateCrc(c, a), back), UpdateCrc(UpdateCrc(c, b), back), 0xFFFFFFFF);
      UpdateInjective(UpdateCrc(c, a), UpdateCrc(c, b), back);
      WindowState(c, a);
      WindowState(c, b);
      ShiftsInjective(Xor(c, LittleWord(a)), Xor(c, LittleWord(b)), 8 * |a|);
      XorCancels(LittleWord(a), LittleWord(b), c);
      LittleWordInjective(a, b);
    }
  }
}
