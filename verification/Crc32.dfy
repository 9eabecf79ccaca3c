/** The table-driven CRC of ghost/crc32.cpp. */
module Crc32 {
  import opened Crc32Spec

  const CRC32_POLYNOMIAL: bv32 := 0x04c11db7

  // ----- mirror images -----

  function Or(x: bv32, y: bv32): bv32 { x | y }

  /** x >> n, one position at a time. */
  function Shr(x: bv32, n: bv6): bv32
    requires n <= 32
    decreases n, x
  {
    if n == 0 then x else Shr(Half(x), n - 1)
  }

  predicate TopBit(x: bv32) { x & 0x80000000 != 0 }

  /** 1 << ( n - 1 ), or nothing. */
  function Bit(on: bool, n: bv6): bv32
    requires 0 < n <= 32
  {
    if on then 1 << (n - 1) else 0
  }

  /** The low n bits of x in reverse order. */
  function Mirror(x: bv32, n: bv6): bv32
    requires n <= 32
    decreases n, x
  {
    if n == 0 then 0 else Or(Bit(Odd(x), n), Mirror(Half(x), n - 1))
  }

  /** All 32 bits reversed, by exchanging neighbours, pairs, nibbles, bytes and halves. */
  function Reversed(x: bv32): bv32 {
    var a := ((x >> 1) & 0x55555555) | ((x & 0x55555555) << 1);
    var b := ((a >> 2) & 0x33333333) | ((a & 0x33333333) << 2);
    var c := ((b >> 4) & 0x0F0F0F0F) | ((b & 0x0F0F0F0F) << 4);
    var d := ((c >> 8) & 0x00FF00FF) | ((c & 0x00FF00FF) << 8);
    (d >> 16) | (d << 16)
  }

  function High(y: bv32): bv32 { y & 0x80000000 }

  function Low(y: bv32): bv32 { y & 0x7FFFFFFF }

  lemma HighLow(y: bv32)
    ensures Or(High(y), Low(y)) == y
  {
  }

  lemma HalfOr(x: bv32, y: bv32)
    ensures Half(Or(x, y)) == Or(Half(x), Half(y))
  {
  }

  lemma {:induction false} ShrOr(x: bv32, y: bv32, n: bv6)
    requires n <= 32
    ensures Shr(Or(x, y), n) == Or(Shr(x, n), Shr(y, n))
    decreases n
  {
    if n != 0 {
      HalfOr(x, y);
      hide Half, Or;
      ShrOr(Half(x), Half(y), n - 1);
    }
  }

  lemma {:induction false} ShrLast(x: bv32, n: bv6)
    requires n < 32
    ensures Shr(x, n + 1) == Half(Shr(x, n))
    decreases n
  {
    hide Half;
    if n != 0 {
      ShrLast(Half(x), n - 1);
    }
  }

  lemma HalfOfBit(n: bv6)
    requires 1 < n <= 32
    ensures Half(1 << (n - 1)) == 1 << (n - 1 - 1)
  {
  }

  /** The top bit moved down to position n - 1. */
  lemma {:induction false} ShrTopBit(n: bv6)
    requires 0 < n <= 32
    ensures Shr(0x80000000, 32 - n) == Bit(true, n)
    decreases 32 - n
  {
    if n < 32 {
      hide Half;
      ShrTopBit(n + 1);
      ShrLast(0x80000000, 32 - (n + 1));
      HalfOfBit(n + 1);
      assert 32 - (n + 1) + 1 == 32 - n && n + 1 - 1 == n;
    }
  }

  lemma {:induction false} ShrZero(n: bv6)
    requires n <= 32
    ensures Shr(0, n) == 0
    decreases n
  {
    if n != 0 {
      assert Half(0) == 0;
      ShrZero(n - 1);
    }
  }

  lemma ShrHigh(y: bv32, n: bv6)
    requires 0 < n <= 32
    ensures Shr(High(y), 32 - n) == Bit(TopBit(y), n)
  {
    assert High(y) == if TopBit(y) then 0x80000000 else 0;
    hide Half, High, TopBit, Shr;
    ShrTopBit(n);
    ShrZero(32 - n);
  }

  lemma ShrLow(y: bv32, n: bv6)
    requires 0 < n <= 32
    ensures Shr(Low(y), 32 - n) == Shr(Double(y), 32 - (n - 1))
  {
  }

  /** The top n bits of y are its top bit and the top n - 1 bits of what follows. */
  lemma TopStep(y: bv32, n: bv6)
    requires 0 < n <= 32
    ensures Shr(y, 32 - n) == Or(Bit(TopBit(y), n), Shr(Double(y), 32 - (n - 1)))
  {
    HighLow(y);
    ShrOr(High(y), Low(y), 32 - n);
    ShrHigh(y, n);
    ShrLow(y, n);
    hide High, Low, Or, Shr, Bit, TopBit, Double;
  }

  lemma ReversedHalf(x: bv32)
    ensures Reversed(Half(x)) == Double(Reversed(x))
    ensures TopBit(Reversed(x)) == Odd(x)
  {
  }

  // Shifting by constants, as the operator does it.

  lemma Shr8(x: bv32)
    ensures Shr(x, 8) == x >> 8
  {
    ShrNothing(x);
    hide Shr;
    ShrLast(x, 0);
    ShrLast(x, 1);
    ShrLast(x, 2);
    ShrLast(x, 3);
    ShrLast(x, 4);
    ShrLast(x, 5);
    ShrLast(x, 6);
    ShrLast(x, 7);
  }

  lemma Shr16(x: bv32)
    ensures Shr(x, 16) == x >> 16
  {
    Shr8(x);
    hide Shr;
    ShrLast(x, 8);
    ShrLast(x, 9);
    ShrLast(x, 10);
    ShrLast(x, 11);
    ShrLast(x, 12);
    ShrLast(x, 13);
    ShrLast(x, 14);
    ShrLast(x, 15);
  }

  lemma Shr24(x: bv32)
    ensures Shr(x, 24) == x >> 24
  {
    Shr16(x);
    hide Shr;
    ShrLast(x, 16);
    ShrLast(x, 17);
    ShrLast(x, 18);
    ShrLast(x, 19);
    ShrLast(x, 20);
    ShrLast(x, 21);
    ShrLast(x, 22);
    ShrLast(x, 23);
  }

  lemma Shr32(x: bv32)
    ensures Shr(x, 32) == x >> 32
  {
    Shr24(x);
    hide Shr;
    ShrLast(x, 24);
    ShrLast(x, 25);
    ShrLast(x, 26);
    ShrLast(x, 27);
    ShrLast(x, 28);
    ShrLast(x, 29);
    ShrLast(x, 30);
    ShrLast(x, 31);
  }

  lemma ShrNothing(x: bv32)
    ensures Shr(x, 0) == x
  {
  }

  lemma {:induction false} MirrorIsReversed(x: bv32, n: bv6)
    requires n <= 32
    ensures Mirror(x, n) == Shr(Reversed(x), 32 - n)
    decreases n
  {
    if n == 0 {
      Shr32(Reversed(x));
    } else {
      ReversedHalf(x);
      hide Or, Bit, Odd, Half, Double, Shr, TopBit, Reversed;
      MirrorIsReversed(Half(x), n - 1);
      TopStep(Reversed(x), n);
    }
  }

  // ----- the table -----

  /** The left-shifting step of Initialize. */
  function LeftStep(x: bv32): bv32 {
    Xor(Double(x), if TopBit(x) then CRC32_POLYNOMIAL else 0)
  }

  function LeftSteps(x: bv32, n: nat): bv32
    decreases n, x
  {
    if n == 0 then x else LeftSteps(LeftStep(x), n - 1)
  }

  /** In the mirror, a left step is a right step with the reflected polynomial. */
  lemma MirroredStep(x: bv32)
    ensures Reversed(LeftStep(x)) == Shift(Reversed(x))
  {
    MirroredStepOdd(x);
    MirroredStepEven(x);
    MirroredBit(x);
    hide Reversed, Xor, Half, Double, TopBit, Odd;
  }

  lemma ReversedOddStep(x: bv32)
    ensures Reversed((x << 1) ^ 0x04c11db7) == 0xEDB88320 ^ (Reversed(x) >> 1)
  {
  }

  lemma ReversedEvenStep(x: bv32)
    ensures Reversed((x << 1) ^ 0) == Reversed(x) >> 1
  {
  }

  lemma MirroredStepOdd(x: bv32)
    ensures Reversed(Xor(Double(x), CRC32_POLYNOMIAL)) == Xor(REFLECTED_POLYNOMIAL, Half(Reversed(x)))
  {
    ReversedOddStep(x);
    hide Reversed;
  }

  lemma MirroredStepEven(x: bv32)
    ensures Reversed(Xor(Double(x), 0)) == Half(Reversed(x))
  {
    ReversedEvenStep(x);
    hide Reversed;
  }

  lemma MirroredBit(x: bv32)
    ensures TopBit(x) == Odd(Reversed(x))
  {
  }

  lemma {:induction false} MirroredSteps(x: bv32, n: nat)
    ensures Reversed(LeftSteps(x, n)) == Shifts(Reversed(x), n)
    decreases n
  {
    if n > 0 {
      hide Reversed, LeftStep, Shift;
      MirroredStep(x);
      MirroredSteps(LeftStep(x), n - 1);
    }
  }

  lemma MirroredByte(b: bv8)
    ensures Reversed(Shr(Reversed(b as bv32), 24) << 24) == b as bv32
  {
    Shr24(Reversed(b as bv32));
    MirroredByteRaw(b);
    hide Reversed, Shr;
  }

  lemma MirroredByteRaw(b: bv8)
    ensures Reversed((Reversed(b as bv32) >> 24) << 24) == b as bv32
  {
  }

  /** Reflect, shift left eight times, reflect: eight right steps of the plain byte. */
  lemma EntryIsShifts(b: bv8)
    ensures Mirror(LeftSteps(Mirror(b as bv32, 8) << 24, 8), 32) == Shifts(b as bv32, 8)
  {
    hide Mirror, LeftSteps, Shifts, Reversed, Shr;
    var start := Mirror(b as bv32, 8) << 24;
    MirrorIsReversed(b as bv32, 8);
    MirrorIsReversed(LeftSteps(start, 8), 32);
    ShrNothing(Reversed(LeftSteps(start, 8)));
    MirroredSteps(start, 8);
    MirroredByte(b);
  }

  lemma OrZero(x: bv32)
    ensures Or(0, x) == x && Or(x, 0) == x
  {
  }

  lemma OrAssociative(x: bv32, y: bv32, z: bv32)
    ensures Or(Or(x, y), z) == Or(x, Or(y, z))
  {
  }

  /** One turn of the loop of Reflect takes one bit off the image still to come. */
  lemma MirrorStep(value: bv32, x: bv32, n: bv6)
    requires 0 < n <= 32
    ensures Or(value, Mirror(x, n)) == Or(Or(value, Bit(Odd(x), n)), Mirror(Half(x), n - 1))
  {
    hide Or, Bit, Odd, Half;
    OrAssociative(value, Bit(Odd(x), n), Mirror(Half(x), n - 1));
  }

  lemma MirrorNothing(value: bv32, x: bv32)
    ensures Or(value, Mirror(x, 0)) == value
  {
    OrZero(value);
  }

  class CCrc32 {
    const ulTable: array<bv32>

    /** What Initialize establishes. */
    ghost predicate Ready()
      reads this, ulTable
    {
      ulTable.Length == 256 && forall k | 0 <= k < 256 :: ulTable[k] == Shifts(Code(k) as bv32, 8)
    }

    constructor ()
      ensures ulTable.Length == 256 && fresh(ulTable)
    {
      ulTable := new bv32[256];
    }

    method Reflect(ulReflect0: bv32, cChar: bv6) returns (ulValue: bv32)
      requires cChar <= 32
      ensures ulValue == Mirror(ulReflect0, cChar)
    {
      hide Or, Bit, Odd, Half, Mirror;
      var ulReflect := ulReflect0;
      ulValue := 0;
      var iPos: bv6 := 1;
      ghost var left := cChar;
      OrZero(Mirror(ulReflect0, cChar));
      while iPos < cChar + 1
        invariant left <= cChar && iPos == cChar + 1 - left
        invariant Or(ulValue, Mirror(ulReflect, left)) == Mirror(ulReflect0, cChar)
        decreases left
      {
        MirrorStep(ulValue, ulReflect, left);
        ulValue, ulReflect := ReflectBit(ulValue, ulReflect, cChar + 1 - iPos);
        iPos, left := iPos + 1, left - 1;
      }
      MirrorNothing(ulValue, ulReflect);
    }

    /** The body of the loop, with n = cChar + 1 - iPos positions left. */
    method ReflectBit(value: bv32, reflect: bv32, n: bv6) returns (ulValue: bv32, ulReflect: bv32)
      requires 0 < n <= 32
      ensures ulValue == Or(value, Bit(Odd(reflect), n)) && ulReflect == Half(reflect)
    {
      OrZero(value);
      ulValue, ulReflect := value, reflect;
      if Odd(ulReflect) {
        ulValue := Or(ulValue, 1 << (n - 1));
      }
      ulReflect := Half(ulReflect);
    }

    /** The loop over the eight bits of one entry. */
    method ShiftEntry(iCodes: nat)
      requires iCodes < ulTable.Length
      modifies ulTable
      ensures ulTable[iCodes] == LeftSteps(old(ulTable[iCodes]), 8)
      ensures forall k | 0 <= k < ulTable.Length && k != iCodes :: ulTable[k] == old(ulTable[k])
    {
      hide LeftStep;
      for iPos := 0 to 8
        invariant LeftSteps(ulTable[iCodes], 8 - iPos) == LeftSteps(old(ulTable[iCodes]), 8)
        invariant forall k | 0 <= k < ulTable.Length && k != iCodes :: ulTable[k] == old(ulTable[k])
      {
        ulTable[iCodes] := LeftStep(ulTable[iCodes]);
      }
    }

    method Initialize()
      requires ulTable.Length == 256
      modifies ulTable
      ensures Ready()
    {
      hide Mirror, LeftSteps, Shifts, LeftStep, Code;
      for iCodes := 0 to 256
        invariant forall k | 0 <= k < iCodes :: ulTable[k] == Shifts(Code(k) as bv32, 8)
      {
        var code := Code(iCodes);
        var reflected := Reflect(code as bv32, 8);
        ulTable[iCodes] := reflected << 24;
        ShiftEntry(iCodes);
        ulTable[iCodes] := Reflect(ulTable[iCodes], 32);
        EntryIsShifts(code);
      }
    }

    /** The register after the bytes, one table lookup each. */
    method PartialCrc(ulInCrc: bv32, sData: seq<bv8>) returns (ulCrc: bv32)
      requires Ready()
      ensures ulCrc == UpdateCrc(ulInCrc, sData)
    {
      hide Shifts, Xor, Half, Code, TableIndex, UpdateByte;
      ulCrc := ulInCrc;
      var i := 0;
      while i < |sData|
        invariant 0 <= i <= |sData|
        invariant UpdateCrc(ulCrc, sData[i..]) == UpdateCrc(ulInCrc, sData)
      {
        assert sData[i..][1..] == sData[i + 1..];
        LookupIsByte(ulCrc, sData[i]);
        CodeOf(TableIndex(ulCrc, sData[i]));
        ulCrc := Xor(ulCrc >> 8, ulTable[TableIndex(ulCrc, sData[i]) as int]);
        i := i + 1;
      }
    }

    method FullCrc(sData: seq<bv8>) returns (r: bv32)
      requires Ready()
      ensures r == Crc(sData)
    {
      hide UpdateCrc;
      var ulCrc := PartialCrc(0xFFFFFFFF, sData);
      r := Xor(ulCrc, 0xFFFFFFFF);
    }
  }

  function Code(k: int): bv8
    requires 0 <= k < 256
  {
    k as bv8
  }

  lemma CodeOf(b: bv8)
    ensures Code(b as int) == b
  {
  }

  /** ( crc & 0xFF ) ^ byte. */
  function TableIndex(crc: bv32, b: bv8): bv8 {
    ((crc & 0xFF) as bv8) ^ b
  }

  /** One lookup does the work of eight single-bit steps. */
  lemma LookupIsByte(crc: bv32, b: bv8)
    ensures Xor(crc >> 8, Shifts(TableIndex(crc, b) as bv32, 8)) == UpdateByte(crc, b)
  {
    var low := TableIndex(crc, b) as bv32;
    SplitRegister(crc, b);
    EightShifts(low, crc >> 8);
    XorCommutes(Shifts(low, 8), crc >> 8);
    hide Xor, Shifts, TableIndex;
  }

  lemma SplitRegister(crc: bv32, b: bv8)
    ensures Xor(crc, b as bv32) == Xor(TableIndex(crc, b) as bv32, (crc >> 8) << 8) && crc >> 8 < 0x1000000
  {
  }

  lemma XorCommutes(x: bv32, y: bv32)
    ensures Xor(x, y) == Xor(y, x)
  {
  }
}
