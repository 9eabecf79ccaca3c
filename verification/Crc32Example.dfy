/** The check value by which CRCs are told apart, the CRC of "123456789". It ties the
    polynomial, the bit order and the conditioning of Crc32Spec to a published value. */
module Crc32Example {
  import opened Crc32Spec

  // ----- eight steps at once -----

  lemma TwoSteps(c: bv32, n: nat)
    ensures Shifts(c, n + 2) == Shifts(Shift(Shift(c)), n)
  {
    hide Shift;
    assert Shifts(c, n + 2) == Shifts(Shift(c), n + 1);
  }

  lemma EightSteps(c: bv32)
    ensures Shifts(c, 8) == Shift(Shift(Shift(Shift(Shift(Shift(Shift(Shift(c))))))))
  {
    hide Shift;
    var c2 := Shift(Shift(c));
    var c4 := Shift(Shift(c2));
    var c6 := Shift(Shift(c4));
    TwoSteps(c, 6);
    TwoSteps(c2, 4);
    TwoSteps(c4, 2);
    TwoSteps(c6, 0);
  }

  // ----- byte by byte -----

  lemma Digit1()
    ensures UpdateByte(0xFFFFFFFF, 49) == 0x7C231048
  {
    EightSteps(Xor(0xFFFFFFFF, 49));
  }

  lemma Digit2()
    ensures UpdateByte(0x7C231048, 50) == 0xB0ACBB32
  {
    EightSteps(Xor(0x7C231048, 50));
  }

  lemma Digit3()
    ensures UpdateByte(0xB0ACBB32, 51) == 0x77B79C2D
  {
    EightSteps(Xor(0xB0ACBB32, 51));
  }

  lemma Digit4()
    ensures UpdateByte(0x77B79C2D, 52) == 0x641C1F5C
  {
    EightSteps(Xor(0x77B79C2D, 52));
  }

  lemma Digit5()
    ensures UpdateByte(0x641C1F5C, 53) == 0x340AC5E3
  {
    EightSteps(Xor(0x641C1F5C, 53));
  }

  lemma Digit6()
    ensures UpdateByte(0x340AC5E3, 54) == 0xF68D2C9E
  {
    EightSteps(Xor(0x340AC5E3, 54));
  }

  lemma Digit7()
    ensures UpdateByte(0xF68D2C9E, 55) == 0xAFFC9660
  {
    EightSteps(Xor(0xF68D2C9E, 55));
  }

  lemma Digit8()
    ensures UpdateByte(0xAFFC9660, 56) == 0x651F2550
  {
    EightSteps(Xor(0xAFFC9660, 56));
  }

  lemma Digit9()
    ensures UpdateByte(0x651F2550, 57) == 0x340BC6D9
  {
    EightSteps(Xor(0x651F2550, 57));
  }

  /** The register after one more byte. */
  lemma Next(c: bv32, b: bv8, rest: seq<bv8>, c': bv32)
    requires UpdateByte(c, b) == c'
    ensures UpdateCrc(c, [b] + rest) == UpdateCrc(c', rest)
  {
    hide UpdateByte;
    assert ([b] + rest)[1..] == rest;
  }

  lemma FirstFive(rest: seq<bv8>)
    ensures UpdateCrc(0xFFFFFFFF, [49] + ([50] + ([51] + ([52] + ([53] + rest))))) == UpdateCrc(0x340AC5E3, rest)
  {
    hide UpdateByte, UpdateCrc;
    Digit1();
    Next(0xFFFFFFFF, 49, [50] + ([51] + ([52] + ([53] + rest))), 0x7C231048);
    Digit2();
    Next(0x7C231048, 50, [51] + ([52] + ([53] + rest)), 0xB0ACBB32);
    Digit3();
    Next(0xB0ACBB32, 51, [52] + ([53] + rest), 0x77B79C2D);
    Digit4();
    Next(0x77B79C2D, 52, [53] + rest, 0x641C1F5C);
    Digit5();
    Next(0x641C1F5C, 53, rest, 0x340AC5E3);
  }

  lemma LastFour()
    ensures UpdateCrc(0x340AC5E3, [54] + ([55] + ([56] + ([57] + [])))) == 0x340BC6D9
  {
    assert UpdateCrc(0x340BC6D9, []) == 0x340BC6D9;
    hide UpdateByte, UpdateCrc;
    Digit6();
    Next(0x340AC5E3, 54, [55] + ([56] + ([57] + [])), 0xF68D2C9E);
    Digit7();
    Next(0xF68D2C9E, 55, [56] + ([57] + []), 0xAFFC9660);
    Digit8();
    Next(0xAFFC9660, 56, [57] + [], 0x651F2550);
    Digit9();
    Next(0x651F2550, 57, [], 0x340BC6D9);
  }

  lemma CheckValue()
    ensures Crc([49, 50, 51, 52, 53, 54, 55, 56, 57]) == 0xCBF43926
  {
    hide UpdateCrc;
    var last: seq<bv8> := [54] + ([55] + ([56] + ([57] + [])));
    FirstFive(last);
    LastFour();
    assert [49, 50, 51, 52, 53, 54, 55, 56, 57] == [49] + ([50] + ([51] + ([52] + ([53] + last))));
  }
}
