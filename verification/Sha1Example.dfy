/** The worked example of FIPS PUB 180-1, appendix A: the message "abc", word by
    word and step by step. It ties the constants, functions, rotations and byte
    orders of Sha1Spec to published values. */
module Sha1Example {
  import opened BlockHash
  import opened Sha1Spec
  import opened Sequences

  // "abc"
  const ABC: seq<bv8> := [97, 98, 99]

  /** "abc" padded to one block: the 1 bit, zeros, and the length 24. */
  function AbcBlock(): (b: Block)
    ensures b[..4] == [97, 98, 99, 0x80] && b[63] == 24 && forall i | 4 <= i < 63 :: b[i] == 0
  {
    ABC + [0x80] + Zeros(59) + [24]
  }

  // ----- the constants -----

  /** Section 6: the constants are the square roots of 2, 3, 5 and 10, times 2^30. */
  lemma ConstantsAreRoots(t: nat)
    requires t < 80
    ensures var n := if t < 20 then 2 else if t < 40 then 3 else if t < 60 then 5 else 10;
      var k := K(t) as int;
      k * k <= n * 0x1000_0000_0000_0000 < (k + 1) * (k + 1)
  {
  }

  // ----- the words of the schedule -----

  lemma InputWords()
    ensures W(AbcBlock(), 0) == 0x61626380 && W(AbcBlock(), 15) == 0x00000018
    ensures forall t | 1 <= t < 15 :: W(AbcBlock(), t) == 0
  {
    hide BigEndian, AbcBlock;
    BytesInOrder();
    var b := AbcBlock();
    assert b[0] == b[..4][0] && b[1] == b[..4][1] && b[2] == b[..4][2] && b[3] == b[..4][3];
  }

  lemma BytesInOrder()
    ensures BigEndian(97, 98, 99, 0x80) == 0x61626380 && BigEndian(0, 0, 0, 24) == 24 && BigEndian(0, 0, 0, 0) == 0
  {
  }

  /** One more word, from the four it is made of. */
  lemma NextWord(t: nat, w: bv32)
    requires t >= 16
    requires Rotl(W(AbcBlock(), t - 3) ^ W(AbcBlock(), t - 8) ^ W(AbcBlock(), t - 14) ^ W(AbcBlock(), t - 16), 1) == w
    ensures W(AbcBlock(), t) == w
  {
    hide Rotl;
  }

  lemma Words16()
    ensures W(AbcBlock(), 16) == 0xC2C4C700 && W(AbcBlock(), 17) == 0x00000000
    ensures W(AbcBlock(), 18) == 0x00000030 && W(AbcBlock(), 19) == 0x85898E01
    ensures W(AbcBlock(), 20) == 0x00000000 && W(AbcBlock(), 21) == 0x00000060
    ensures W(AbcBlock(), 22) == 0x0B131C03 && W(AbcBlock(), 23) == 0x00000030
  {
    InputWords();
    hide W, AbcBlock;
    NextWord(16, 0xC2C4C700);
    NextWord(17, 0x00000000);
    NextWord(18, 0x00000030);
    NextWord(19, 0x85898E01);
    NextWord(20, 0x00000000);
    NextWord(21, 0x00000060);
    NextWord(22, 0x0B131C03);
    NextWord(23, 0x00000030);
  }

  lemma Words24()
    ensures W(AbcBlock(), 24) == 0x85898EC1 && W(AbcBlock(), 25) == 0x16263806
    ensures W(AbcBlock(), 26) == 0x00000000 && W(AbcBlock(), 27) == 0x00000180
    ensures W(AbcBlock(), 28) == 0x2C4C700C && W(AbcBlock(), 29) == 0x000000F0
    ensures W(AbcBlock(), 30) == 0x93AFB507 && W(AbcBlock(), 31) == 0x5898E048
  {
    Words16();
    InputWords();
    hide W, AbcBlock;
    NextWord(24, 0x85898EC1);
    NextWord(25, 0x16263806);
    NextWord(26, 0x00000000);
    NextWord(27, 0x00000180);
    NextWord(28, 0x2C4C700C);
    NextWord(29, 0x000000F0);
    NextWord(30, 0x93AFB507);
    NextWord(31, 0x5898E048);
  }

  lemma Words32()
    ensures W(AbcBlock(), 32) == 0x8E9A9202 && W(AbcBlock(), 33) == 0x00000600
    ensures W(AbcBlock(), 34) == 0xB131C0F0 && W(AbcBlock(), 35) == 0x16263BC6
    ensures W(AbcBlock(), 36) == 0x4EBED41E && W(AbcBlock(), 37) == 0x626380A1
    ensures W(AbcBlock(), 38) == 0x16263806 && W(AbcBlock(), 39) == 0x000018C0
  {
    Words16();
    Words24();
    hide W, AbcBlock;
    NextWord(32, 0x8E9A9202);
    NextWord(33, 0x00000600);
    NextWord(34, 0xB131C0F0);
    NextWord(35, 0x16263BC6);
    NextWord(36, 0x4EBED41E);
    NextWord(37, 0x626380A1);
    NextWord(38, 0x16263806);
    NextWord(39, 0x000018C0);
  }

  lemma Words40()
    ensures W(AbcBlock(), 40) == 0xD2E138C4 && W(AbcBlock(), 41) == 0x00000F00
    ensures W(AbcBlock(), 42) == 0x3AFB5079 && W(AbcBlock(), 43) == 0x898E04E5
    ensures W(AbcBlock(), 44) == 0xE2BA3C2B && W(AbcBlock(), 45) == 0x000060C0
    ensures W(AbcBlock(), 46) == 0x053A37CD && W(AbcBlock(), 47) == 0x74458547
  {
    Words24();
    Words32();
    hide W, AbcBlock;
    NextWord(40, 0xD2E138C4);
    NextWord(41, 0x00000F00);
    NextWord(42, 0x3AFB5079);
    NextWord(43, 0x898E04E5);
    NextWord(44, 0xE2BA3C2B);
    NextWord(45, 0x000060C0);
    NextWord(46, 0x053A37CD);
    NextWord(47, 0x74458547);
  }

  lemma Words48()
    ensures W(AbcBlock(), 48) == 0xDA9415ED && W(AbcBlock(), 49) == 0x26380A16
    ensures W(AbcBlock(), 50) == 0x626383A1 && W(AbcBlock(), 51) == 0x4EBF54DE
    ensures W(AbcBlock(), 52) == 0x3835B44B && W(AbcBlock(), 53) == 0x0000F600
    ensures W(AbcBlock(), 54) == 0x1E84C7A3 && W(AbcBlock(), 55) == 0x98E04D98
  {
    Words32();
    Words40();
    hide W, AbcBlock;
    NextWord(48, 0xDA9415ED);
    NextWord(49, 0x26380A16);
    NextWord(50, 0x626383A1);
    NextWord(51, 0x4EBF54DE);
    NextWord(52, 0x3835B44B);
    NextWord(53, 0x0000F600);
    NextWord(54, 0x1E84C7A3);
    NextWord(55, 0x98E04D98);
  }

  lemma Words56()
    ensures W(AbcBlock(), 56) == 0x651D16A0 && W(AbcBlock(), 57) == 0x62658CA1
    ensures W(AbcBlock(), 58) == 0x458544D6 && W(AbcBlock(), 59) == 0x44584CB7
    ensures W(AbcBlock(), 60) == 0x7BA06619 && W(AbcBlock(), 61) == 0x6380AEA2
    ensures W(AbcBlock(), 62) == 0x0AE55269 && W(AbcBlock(), 63) == 0x627B49A1
  {
    Words40();
    Words48();
    hide W, AbcBlock;
    NextWord(56, 0x651D16A0);
    NextWord(57, 0x62658CA1);
    NextWord(58, 0x458544D6);
    NextWord(59, 0x44584CB7);
    NextWord(60, 0x7BA06619);
    NextWord(61, 0x6380AEA2);
    NextWord(62, 0x0AE55269);
    NextWord(63, 0x627B49A1);
  }

  lemma Words64()
    ensures W(AbcBlock(), 64) == 0x7CD45C9D && W(AbcBlock(), 65) == 0x000F0000
    ensures W(AbcBlock(), 66) == 0xFB50753A && W(AbcBlock(), 67) == 0xEC6765E8
    ensures W(AbcBlock(), 68) == 0xBA3C2BE2 && W(AbcBlock(), 69) == 0x0060C000
    ensures W(AbcBlock(), 70) == 0x3A37CD05 && W(AbcBlock(), 71) == 0x458546F4
  {
    Words48();
    Words56();
    hide W, AbcBlock;
    NextWord(64, 0x7CD45C9D);
    NextWord(65, 0x000F0000);
    NextWord(66, 0xFB50753A);
    NextWord(67, 0xEC6765E8);
    NextWord(68, 0xBA3C2BE2);
    NextWord(69, 0x0060C000);
    NextWord(70, 0x3A37CD05);
    NextWord(71, 0x458546F4);
  }

  lemma Words72()
    ensures W(AbcBlock(), 72) == 0xB8599DD6 && W(AbcBlock(), 73) == 0x380A1A26
    ensures W(AbcBlock(), 74) == 0x01E02203 && W(AbcBlock(), 75) == 0xE7CC3456
    ensures W(AbcBlock(), 76) == 0xE6E60B69 && W(AbcBlock(), 77) == 0x00F60A00
    ensures W(AbcBlock(), 78) == 0x5795EF4F && W(AbcBlock(), 79) == 0x822E0879
  {
    Words56();
    Words64();
    hide W, AbcBlock;
    NextWord(72, 0xB8599DD6);
    NextWord(73, 0x380A1A26);
    NextWord(74, 0x01E02203);
    NextWord(75, 0xE7CC3456);
    NextWord(76, 0xE6E60B69);
    NextWord(77, 0x00F60A00);
    NextWord(78, 0x5795EF4F);
    NextWord(79, 0x822E0879);
  }

  // ----- the 80 steps -----

  /** One more step, from the registers before it and its word. */
  lemma NextStep(t: nat, r: Regs, w: bv32, next: Regs) returns (s: Regs)
    requires Rounds(IV, AbcBlock(), t) == r && W(AbcBlock(), t) == w && Step(r, t, w) == next
    ensures s == next && Rounds(IV, AbcBlock(), t + 1) == s
  {
    s := next;
  }

  lemma Steps0() returns (r: Regs)
    ensures r == Rounds(IV, AbcBlock(), 10) == Regs(0x8351F929, 0x4B6AE328, 0x27A301F5, 0x664F8C30, 0x0FF1F290)
  {
    InputWords();
    r := IV;
    assert Rounds(IV, AbcBlock(), 0) == r;
    hide W, Rounds, AbcBlock;
    r := NextStep(0, r, 0x61626380, Regs(0x0116FC33, 0x67452301, 0x7BF36AE2, 0x98BADCFE, 0x10325476));
    r := NextStep(1, r, 0x00000000, Regs(0x8990536D, 0x0116FC33, 0x59D148C0, 0x7BF36AE2, 0x98BADCFE));
    r := NextStep(2, r, 0x00000000, Regs(0xA1390F08, 0x8990536D, 0xC045BF0C, 0x59D148C0, 0x7BF36AE2));
    r := NextStep(3, r, 0x00000000, Regs(0xCDD8E11B, 0xA1390F08, 0x626414DB, 0xC045BF0C, 0x59D148C0));
    r := NextStep(4, r, 0x00000000, Regs(0xCFD499DE, 0xCDD8E11B, 0x284E43C2, 0x626414DB, 0xC045BF0C));
    r := NextStep(5, r, 0x00000000, Regs(0x3FC7CA40, 0xCFD499DE, 0xF3763846, 0x284E43C2, 0x626414DB));
    r := NextStep(6, r, 0x00000000, Regs(0x993E30C1, 0x3FC7CA40, 0xB3F52677, 0xF3763846, 0x284E43C2));
    r := NextStep(7, r, 0x00000000, Regs(0x9E8C07D4, 0x993E30C1, 0x0FF1F290, 0xB3F52677, 0xF3763846));
    r := NextStep(8, r, 0x00000000, Regs(0x4B6AE328, 0x9E8C07D4, 0x664F8C30, 0x0FF1F290, 0xB3F52677));
    r := NextStep(9, r, 0x00000000, Regs(0x8351F929, 0x4B6AE328, 0x27A301F5, 0x664F8C30, 0x0FF1F290));
  }

  lemma Steps10() returns (r: Regs)
    ensures r == Rounds(IV, AbcBlock(), 20) == Regs(0xFD9E1D7D, 0xDC64901D, 0x20AA99CA, 0xD3A49608, 0xC82F758B)
  {
    InputWords();
    Words16();
    r := Steps0();
    hide W, Rounds, AbcBlock;
    r := NextStep(10, r, 0x00000000, Regs(0xFBDA9E89, 0x8351F929, 0x12DAB8CA, 0x27A301F5, 0x664F8C30));
    r := NextStep(11, r, 0x00000000, Regs(0x63188FE4, 0xFBDA9E89, 0x60D47E4A, 0x12DAB8CA, 0x27A301F5));
    r := NextStep(12, r, 0x00000000, Regs(0x4607B664, 0x63188FE4, 0x7EF6A7A2, 0x60D47E4A, 0x12DAB8CA));
    r := NextStep(13, r, 0x00000000, Regs(0x9128F695, 0x4607B664, 0x18C623F9, 0x7EF6A7A2, 0x60D47E4A));
    r := NextStep(14, r, 0x00000000, Regs(0x196BEE77, 0x9128F695, 0x1181ED99, 0x18C623F9, 0x7EF6A7A2));
    r := NextStep(15, r, 0x00000018, Regs(0x20BDD62F, 0x196BEE77, 0x644A3DA5, 0x1181ED99, 0x18C623F9));
    r := NextStep(16, r, 0xC2C4C700, Regs(0x4E925823, 0x20BDD62F, 0xC65AFB9D, 0x644A3DA5, 0x1181ED99));
    r := NextStep(17, r, 0x00000000, Regs(0x82AA6728, 0x4E925823, 0xC82F758B, 0xC65AFB9D, 0x644A3DA5));
    r := NextStep(18, r, 0x00000030, Regs(0xDC64901D, 0x82AA6728, 0xD3A49608, 0xC82F758B, 0xC65AFB9D));
    r := NextStep(19, r, 0x85898E01, Regs(0xFD9E1D7D, 0xDC64901D, 0x20AA99CA, 0xD3A49608, 0xC82F758B));
  }

  lemma Steps20() returns (r: Regs)
    ensures r == Rounds(IV, AbcBlock(), 30) == Regs(0xC5FBAF5D, 0x8370B52E, 0xD2AA1365, 0x6F8D7EF5, 0x12104EE9)
  {
    Words16();
    Words24();
    r := Steps10();
    hide W, Rounds, AbcBlock;
    r := NextStep(20, r, 0x00000000, Regs(0x1A37B0CA, 0xFD9E1D7D, 0x77192407, 0x20AA99CA, 0xD3A49608));
    r := NextStep(21, r, 0x00000060, Regs(0x33A23BFC, 0x1A37B0CA, 0x7F67875F, 0x77192407, 0x20AA99CA));
    r := NextStep(22, r, 0x0B131C03, Regs(0x21283486, 0x33A23BFC, 0x868DEC32, 0x7F67875F, 0x77192407));
    r := NextStep(23, r, 0x00000030, Regs(0xD541F12D, 0x21283486, 0x0CE88EFF, 0x868DEC32, 0x7F67875F));
    r := NextStep(24, r, 0x85898EC1, Regs(0xC7567DC6, 0xD541F12D, 0x884A0D21, 0x0CE88EFF, 0x868DEC32));
    r := NextStep(25, r, 0x16263806, Regs(0x48413BA4, 0xC7567DC6, 0x75507C4B, 0x884A0D21, 0x0CE88EFF));
    r := NextStep(26, r, 0x00000000, Regs(0xBE35FBD5, 0x48413BA4, 0xB1D59F71, 0x75507C4B, 0x884A0D21));
    r := NextStep(27, r, 0x00000180, Regs(0x4AA84D97, 0xBE35FBD5, 0x12104EE9, 0xB1D59F71, 0x75507C4B));
    r := NextStep(28, r, 0x2C4C700C, Regs(0x8370B52E, 0x4AA84D97, 0x6F8D7EF5, 0x12104EE9, 0xB1D59F71));
    r := NextStep(29, r, 0x000000F0, Regs(0xC5FBAF5D, 0x8370B52E, 0xD2AA1365, 0x6F8D7EF5, 0x12104EE9));
  }

  lemma Steps30() returns (r: Regs)
    ensures r == Rounds(IV, AbcBlock(), 40) == Regs(0x32DE1CBA, 0x4C986405, 0xF718E5CF, 0x03D447F6, 0xF72EEC32)
  {
    Words24();
    Words32();
    r := Steps20();
    hide W, Rounds, AbcBlock;
    r := NextStep(30, r, 0x93AFB507, Regs(0x1267B407, 0xC5FBAF5D, 0xA0DC2D4B, 0xD2AA1365, 0x6F8D7EF5));
    r := NextStep(31, r, 0x5898E048, Regs(0x3B845D33, 0x1267B407, 0x717EEBD7, 0xA0DC2D4B, 0xD2AA1365));
    r := NextStep(32, r, 0x8E9A9202, Regs(0x046FAA0A, 0x3B845D33, 0xC499ED01, 0x717EEBD7, 0xA0DC2D4B));
    r := NextStep(33, r, 0x00000600, Regs(0x2C0EBC11, 0x046FAA0A, 0xCEE1174C, 0xC499ED01, 0x717EEBD7));
    r := NextStep(34, r, 0xB131C0F0, Regs(0x21796AD4, 0x2C0EBC11, 0x811BEA82, 0xCEE1174C, 0xC499ED01));
    r := NextStep(35, r, 0x16263BC6, Regs(0xDCBBB0CB, 0x21796AD4, 0x4B03AF04, 0x811BEA82, 0xCEE1174C));
    r := NextStep(36, r, 0x4EBED41E, Regs(0x0F511FD8, 0xDCBBB0CB, 0x085E5AB5, 0x4B03AF04, 0x811BEA82));
    r := NextStep(37, r, 0x626380A1, Regs(0xDC63973F, 0x0F511FD8, 0xF72EEC32, 0x085E5AB5, 0x4B03AF04));
    r := NextStep(38, r, 0x16263806, Regs(0x4C986405, 0xDC63973F, 0x03D447F6, 0xF72EEC32, 0x085E5AB5));
    r := NextStep(39, r, 0x000018C0, Regs(0x32DE1CBA, 0x4C986405, 0xF718E5CF, 0x03D447F6, 0xF72EEC32));
  }

  lemma Steps40() returns (r: Regs)
    ensures r == Rounds(IV, AbcBlock(), 50) == Regs(0x120731C5, 0xBAF39337, 0xAFAB40B2, 0x2806E11B, 0x8714787C)
  {
    Words40();
    Words48();
    r := Steps30();
    hide W, Rounds, AbcBlock;
    r := NextStep(40, r, 0xD2E138C4, Regs(0xFC87DEDF, 0x32DE1CBA, 0x53261901, 0xF718E5CF, 0x03D447F6));
    r := NextStep(41, r, 0x00000F00, Regs(0x970A0D5C, 0xFC87DEDF, 0x8CB7872E, 0x53261901, 0xF718E5CF));
    r := NextStep(42, r, 0x3AFB5079, Regs(0x7F193DC5, 0x970A0D5C, 0xFF21F7B7, 0x8CB7872E, 0x53261901));
    r := NextStep(43, r, 0x898E04E5, Regs(0xEE1B1AAF, 0x7F193DC5, 0x25C28357, 0xFF21F7B7, 0x8CB7872E));
    r := NextStep(44, r, 0xE2BA3C2B, Regs(0x40F28E09, 0xEE1B1AAF, 0x5FC64F71, 0x25C28357, 0xFF21F7B7));
    r := NextStep(45, r, 0x000060C0, Regs(0x1C51E1F2, 0x40F28E09, 0xFB86C6AB, 0x5FC64F71, 0x25C28357));
    r := NextStep(46, r, 0x053A37CD, Regs(0xA01B846C, 0x1C51E1F2, 0x503CA382, 0xFB86C6AB, 0x5FC64F71));
    r := NextStep(47, r, 0x74458547, Regs(0xBEAD02CA, 0xA01B846C, 0x8714787C, 0x503CA382, 0xFB86C6AB));
    r := NextStep(48, r, 0xDA9415ED, Regs(0xBAF39337, 0xBEAD02CA, 0x2806E11B, 0x8714787C, 0x503CA382));
    r := NextStep(49, r, 0x26380A16, Regs(0x120731C5, 0xBAF39337, 0xAFAB40B2, 0x2806E11B, 0x8714787C));
  }

  lemma Steps50() returns (r: Regs)
    ensures r == Rounds(IV, AbcBlock(), 60) == Regs(0x3F52DE5A, 0x09D785FD, 0x3498BFD4, 0xF211824F, 0xD79915AB)
  {
    Words48();
    Words56();
    r := Steps40();
    hide W, Rounds, AbcBlock;
    r := NextStep(50, r, 0x626383A1, Regs(0x641DB2CE, 0x120731C5, 0xEEBCE4CD, 0xAFAB40B2, 0x2806E11B));
    r := NextStep(51, r, 0x4EBF54DE, Regs(0x3847AD66, 0x641DB2CE, 0x4481CC71, 0xEEBCE4CD, 0xAFAB40B2));
    r := NextStep(52, r, 0x3835B44B, Regs(0xE490436D, 0x3847AD66, 0x99076CB3, 0x4481CC71, 0xEEBCE4CD));
    r := NextStep(53, r, 0x0000F600, Regs(0x27E9F1D8, 0xE490436D, 0x8E11EB59, 0x99076CB3, 0x4481CC71));
    r := NextStep(54, r, 0x1E84C7A3, Regs(0x7B71F76D, 0x27E9F1D8, 0x792410DB, 0x8E11EB59, 0x99076CB3));
    r := NextStep(55, r, 0x98E04D98, Regs(0x5E6456AF, 0x7B71F76D, 0x09FA7C76, 0x792410DB, 0x8E11EB59));
    r := NextStep(56, r, 0x651D16A0, Regs(0xC846093F, 0x5E6456AF, 0x5EDC7DDB, 0x09FA7C76, 0x792410DB));
    r := NextStep(57, r, 0x62658CA1, Regs(0xD262FF50, 0xC846093F, 0xD79915AB, 0x5EDC7DDB, 0x09FA7C76));
    r := NextStep(58, r, 0x458544D6, Regs(0x09D785FD, 0xD262FF50, 0xF211824F, 0xD79915AB, 0x5EDC7DDB));
    r := NextStep(59, r, 0x44584CB7, Regs(0x3F52DE5A, 0x09D785FD, 0x3498BFD4, 0xF211824F, 0xD79915AB));
  }

  lemma Steps60() returns (r: Regs)
    ensures r == Rounds(IV, AbcBlock(), 70) == Regs(0x3F2588C2, 0x497093C0, 0xDE37534A, 0x030F7CAD, 0x4405957E)
  {
    Words56();
    Words64();
    r := Steps50();
    hide W, Rounds, AbcBlock;
    r := NextStep(60, r, 0x7BA06619, Regs(0xD756C147, 0x3F52DE5A, 0x4275E17F, 0x3498BFD4, 0xF211824F));
    r := NextStep(61, r, 0x6380AEA2, Regs(0x548C9CB2, 0xD756C147, 0x8FD4B796, 0x4275E17F, 0x3498BFD4));
    r := NextStep(62, r, 0x0AE55269, Regs(0xB66C020B, 0x548C9CB2, 0xF5D5B051, 0x8FD4B796, 0x4275E17F));
    r := NextStep(63, r, 0x627B49A1, Regs(0x6B61C9E1, 0xB66C020B, 0x9523272C, 0xF5D5B051, 0x8FD4B796));
    r := NextStep(64, r, 0x7CD45C9D, Regs(0x19DFA7AC, 0x6B61C9E1, 0xED9B0082, 0x9523272C, 0xF5D5B051));
    r := NextStep(65, r, 0x000F0000, Regs(0x101655F9, 0x19DFA7AC, 0x5AD87278, 0xED9B0082, 0x9523272C));
    r := NextStep(66, r, 0xFB50753A, Regs(0x0C3DF2B4, 0x101655F9, 0x0677E9EB, 0x5AD87278, 0xED9B0082));
    r := NextStep(67, r, 0xEC6765E8, Regs(0x78DD4D2B, 0x0C3DF2B4, 0x4405957E, 0x0677E9EB, 0x5AD87278));
    r := NextStep(68, r, 0xBA3C2BE2, Regs(0x497093C0, 0x78DD4D2B, 0x030F7CAD, 0x4405957E, 0x0677E9EB));
    r := NextStep(69, r, 0x0060C000, Regs(0x3F2588C2, 0x497093C0, 0xDE37534A, 0x030F7CAD, 0x4405957E));
  }

  lemma Steps70() returns (r: Regs)
    ensures r == Rounds(IV, AbcBlock(), 80) == Regs(0x42541B35, 0x5738D5E1, 0x21834873, 0x681E6DF6, 0xD8FDF6AD)
  {
    Words64();
    Words72();
    r := Steps60();
    hide W, Rounds, AbcBlock;
    r := NextStep(70, r, 0x3A37CD05, Regs(0xC199F8C7, 0x3F2588C2, 0x125C24F0, 0xDE37534A, 0x030F7CAD));
    r := NextStep(71, r, 0x458546F4, Regs(0x39859DE7, 0xC199F8C7, 0x8FC96230, 0x125C24F0, 0xDE37534A));
    r := NextStep(72, r, 0xB8599DD6, Regs(0xEDB42DE4, 0x39859DE7, 0xF0667E31, 0x8FC96230, 0x125C24F0));
    r := NextStep(73, r, 0x380A1A26, Regs(0x11793F6F, 0xEDB42DE4, 0xCE616779, 0xF0667E31, 0x8FC96230));
    r := NextStep(74, r, 0x01E02203, Regs(0x5EE76897, 0x11793F6F, 0x3B6D0B79, 0xCE616779, 0xF0667E31));
    r := NextStep(75, r, 0xE7CC3456, Regs(0x63F7DAB7, 0x5EE76897, 0xC45E4FDB, 0x3B6D0B79, 0xCE616779));
    r := NextStep(76, r, 0xE6E60B69, Regs(0xA079B7D9, 0x63F7DAB7, 0xD7B9DA25, 0xC45E4FDB, 0x3B6D0B79));
    r := NextStep(77, r, 0x00F60A00, Regs(0x860D21CC, 0xA079B7D9, 0xD8FDF6AD, 0xD7B9DA25, 0xC45E4FDB));
    r := NextStep(78, r, 0x5795EF4F, Regs(0x5738D5E1, 0x860D21CC, 0x681E6DF6, 0xD8FDF6AD, 0xD7B9DA25));
    r := NextStep(79, r, 0x822E0879, Regs(0x42541B35, 0x5738D5E1, 0x21834873, 0x681E6DF6, 0xD8FDF6AD));
  }

  // ----- the digest -----

  lemma BytesOf(n: word)
    requires n == 0 || n == 24
    ensures ByteOf(n, 0) == (if n == 0 then 0 else 24) && ByteOf(n, 1) == ByteOf(n, 2) == ByteOf(n, 3) == 0
  {
  }

  lemma Length3()
    ensures LengthBytes(3) == [0, 0, 0, 0, 0, 0, 0, 24]
  {
    hide ByteOf;
    BytesOf(0);
    BytesOf(24);
    assert HighWord(3) == 0 && LowWord(3) == 24;
  }

  lemma AbcPadded()
    ensures Padded(ABC, LengthBytes(3)) == AbcBlock()
  {
    Length3();
    hide LengthBytes;
    assert Zeros(52) + [0, 0, 0, 0, 0, 0, 0, 24] == Zeros(59) + [24];
    ConcatAssociative(ABC + [0x80], Zeros(52), [0, 0, 0, 0, 0, 0, 0, 24]);
    ConcatAssociative(ABC + [0x80], Zeros(59), [24]);
  }

  /** A single block is compressed once. */
  lemma OneBlock(b: Block)
    ensures Absorb(Compress, IV, b) == Compress(IV, b)
  {
    assert b[..64] == b && |b[64..]| < 64;
  }

  lemma AbcCompressed()
    ensures Compress(IV, AbcBlock()) == Regs(0xA9993E36, 0x4706816A, 0xBA3E2571, 0x7850C26C, 0x9CD0D89D)
  {
    var r := Steps70();
    hide Rounds, AbcBlock;
  }

  /** The digest of "abc" is the published one. */
  lemma AbcDigest()
    ensures Digest(ABC) == [
      0xA9, 0x99, 0x3E, 0x36, 0x47, 0x06, 0x81, 0x6A, 0xBA, 0x3E, 0x25, 0x71,
      0x78, 0x50, 0xC2, 0x6C, 0x9C, 0xD0, 0xD8, 0x9D]
  {
    AbcCompressed();
    AbcPadded();
    hide Compress, AbcBlock, Padded, Absorb, LengthBytes;
    OneBlock(AbcBlock());
    DigestWritten();
  }

  lemma DigestWritten()
    ensures RegsBytes(Regs(0xA9993E36, 0x4706816A, 0xBA3E2571, 0x7850C26C, 0x9CD0D89D)) == [
      0xA9, 0x99, 0x3E, 0x36, 0x47, 0x06, 0x81, 0x6A, 0xBA, 0x3E, 0x25, 0x71,
      0x78, 0x50, 0xC2, 0x6C, 0x9C, 0xD0, 0xD8, 0x9D]
  {
  }
}
