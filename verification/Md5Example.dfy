/** One entry of the test suite of RFC 1321, section A.5: the letters and digits, two
    blocks long, step by step. It ties the table, shifts, indices, functions and byte
    orders of Md5Spec to a published value. */
module Md5Example {
  import opened BlockHash
  import opened Md5Spec
  import opened Sequences

  const UPPER: seq<bv8> :=
    [65, 66, 67, 68, 69, 70, 71, 72, 73, 74, 75, 76, 77] +
    [78, 79, 80, 81, 82, 83, 84, 85, 86, 87, 88, 89, 90]

  const LOWER: seq<bv8> :=
    [97, 98, 99, 100, 101, 102, 103, 104, 105, 106, 107, 108, 109] +
    [110, 111, 112, 113, 114, 115, 116, 117, 118, 119, 120, 121, 122]

  const DIGITS: seq<bv8> := [48, 49, 50, 51, 52, 53, 54, 55, 56, 57]

  /** The letters and digits. */
  const ALPHANUMERIC := UPPER + LOWER + DIGITS

  /** The message padded to two blocks. */
  function FirstBlock(): (b: Block)
  {
    ALPHANUMERIC + [0x80, 0]
  }

  function SecondBlock(): (b: Block)
  {
    Zeros(56) + [0xF0, 1, 0, 0, 0, 0, 0, 0]
  }

  /** The chaining value between the blocks. */
  const MIDDLE := Regs(0x83fd320b, 0xdefbe5cf, 0xa9b1642f, 0xfa6f932a)

  // ----- the words -----

  lemma FirstWords0()
    ensures X(FirstBlock(), 0) == 0x44434241 && X(FirstBlock(), 1) == 0x48474645
    ensures X(FirstBlock(), 2) == 0x4c4b4a49 && X(FirstBlock(), 3) == 0x504f4e4d
  {
  }

  lemma FirstWords4()
    ensures X(FirstBlock(), 4) == 0x54535251 && X(FirstBlock(), 5) == 0x58575655
    ensures X(FirstBlock(), 6) == 0x62615a59 && X(FirstBlock(), 7) == 0x66656463
  {
  }

  lemma FirstWords8()
    ensures X(FirstBlock(), 8) == 0x6a696867 && X(FirstBlock(), 9) == 0x6e6d6c6b
    ensures X(FirstBlock(), 10) == 0x7271706f && X(FirstBlock(), 11) == 0x76757473
  {
  }

  lemma FirstWords12()
    ensures X(FirstBlock(), 12) == 0x7a797877 && X(FirstBlock(), 13) == 0x33323130
    ensures X(FirstBlock(), 14) == 0x37363534 && X(FirstBlock(), 15) == 0x00803938
  {
  }

  lemma WordsOfSecond()
    ensures X(SecondBlock(), 14) == 0x000001f0
    ensures forall k | 0 <= k < 16 && k != 14 :: X(SecondBlock(), k) == 0
  {
  }

  // ----- twice 64 steps -----

  /** One more step, from the registers before it and its word. */
  lemma NextStep(h: Regs, block: Block, i: nat, r: Regs, x: bv32, next: Regs) returns (s: Regs)
    requires i < 64 && Rounds(h, block, i) == r && X(block, Index(i)) == x
    requires Regs(r.d, Mixed(r.a, r.b, Aux(i, r.b, r.c, r.d), x, T(i), Shift(i)), r.b, r.c) == next
    ensures s == next && Rounds(h, block, i + 1) == s
  {
    hide Mixed, Aux, T, Shift, X, Index;
    s := next;
  }

  lemma First0(h: Regs, block: Block) returns (r: Regs)
    requires h == IV && block == FirstBlock()
    ensures r == Rounds(h, block, 4) == Regs(0xc6c10796, 0x27bce07a, 0x11067980, 0x99a09999)
  {
    assert Rounds(h, block, 0) == h;
    hide X, Rounds, FirstBlock;
    FirstWords0();
    r := h;
    r := NextStep(h, block, 0, r, 0x44434241, Regs(0x10325476, 0xc6c10796, 0xefcdab89, 0x98badcfe));
    r := NextStep(h, block, 1, r, 0x48474645, Regs(0x98badcfe, 0x99a09999, 0xc6c10796, 0xefcdab89));
    r := NextStep(h, block, 2, r, 0x4c4b4a49, Regs(0xefcdab89, 0x11067980, 0x99a09999, 0xc6c10796));
    r := NextStep(h, block, 3, r, 0x504f4e4d, Regs(0xc6c10796, 0x27bce07a, 0x11067980, 0x99a09999));
  }

  lemma First4(h: Regs, block: Block) returns (r: Regs)
    requires h == IV && block == FirstBlock()
    ensures r == Rounds(h, block, 8) == Regs(0xf22e6c4e, 0xa4799506, 0xa95a2fc0, 0xb4ac9218)
  {
    hide X, Rounds, FirstBlock;
    FirstWords4();
    r := First0(h, block);
    r := NextStep(h, block, 4, r, 0x54535251, Regs(0x99a09999, 0xf22e6c4e, 0x27bce07a, 0x11067980));
    r := NextStep(h, block, 5, r, 0x58575655, Regs(0x11067980, 0xb4ac9218, 0xf22e6c4e, 0x27bce07a));
    r := NextStep(h, block, 6, r, 0x62615a59, Regs(0x27bce07a, 0xa95a2fc0, 0xb4ac9218, 0xf22e6c4e));
    r := NextStep(h, block, 7, r, 0x66656463, Regs(0xf22e6c4e, 0xa4799506, 0xa95a2fc0, 0xb4ac9218));
  }

  lemma First8(h: Regs, block: Block) returns (r: Regs)
    requires h == IV && block == FirstBlock()
    ensures r == Rounds(h, block, 12) == Regs(0x1eb3e7c1, 0x8a7612ec, 0xca27520b, 0xa6e70cfe)
  {
    hide X, Rounds, FirstBlock;
    FirstWords8();
    r := First4(h, block);
    r := NextStep(h, block, 8, r, 0x6a696867, Regs(0xb4ac9218, 0x1eb3e7c1, 0xa4799506, 0xa95a2fc0));
    r := NextStep(h, block, 9, r, 0x6e6d6c6b, Regs(0xa95a2fc0, 0xa6e70cfe, 0x1eb3e7c1, 0xa4799506));
    r := NextStep(h, block, 10, r, 0x7271706f, Regs(0xa4799506, 0xca27520b, 0xa6e70cfe, 0x1eb3e7c1));
    r := NextStep(h, block, 11, r, 0x76757473, Regs(0x1eb3e7c1, 0x8a7612ec, 0xca27520b, 0xa6e70cfe));
  }

  lemma First12(h: Regs, block: Block) returns (r: Regs)
    requires h == IV && block == FirstBlock()
    ensures r == Rounds(h, block, 16) == Regs(0x3cbdcd45, 0x5d38e690, 0xfa148c8a, 0xb8dec763)
  {
    hide X, Rounds, FirstBlock;
    FirstWords12();
    r := First8(h, block);
    r := NextStep(h, block, 12, r, 0x7a797877, Regs(0xa6e70cfe, 0x3cbdcd45, 0x8a7612ec, 0xca27520b));
    r := NextStep(h, block, 13, r, 0x33323130, Regs(0xca27520b, 0xb8dec763, 0x3cbdcd45, 0x8a7612ec));
    r := NextStep(h, block, 14, r, 0x37363534, Regs(0x8a7612ec, 0xfa148c8a, 0xb8dec763, 0x3cbdcd45));
    r := NextStep(h, block, 15, r, 0x00803938, Regs(0x3cbdcd45, 0x5d38e690, 0xfa148c8a, 0xb8dec763));
  }

  lemma First16(h: Regs, block: Block) returns (r: Regs)
    requires h == IV && block == FirstBlock()
    ensures r == Rounds(h, block, 20) == Regs(0x04b9d52a, 0x47ae7c81, 0xd3ee3ed1, 0x783002eb)
  {
    hide X, Rounds, FirstBlock;
    FirstWords0();
    FirstWords4();
    FirstWords8();
    r := First12(h, block);
    r := NextStep(h, block, 16, r, 0x48474645, Regs(0xb8dec763, 0x04b9d52a, 0x5d38e690, 0xfa148c8a));
    r := NextStep(h, block, 17, r, 0x62615a59, Regs(0xfa148c8a, 0x783002eb, 0x04b9d52a, 0x5d38e690));
    r := NextStep(h, block, 18, r, 0x76757473, Regs(0x5d38e690, 0xd3ee3ed1, 0x783002eb, 0x04b9d52a));
    r := NextStep(h, block, 19, r, 0x44434241, Regs(0x04b9d52a, 0x47ae7c81, 0xd3ee3ed1, 0x783002eb));
  }

  lemma First20(h: Regs, block: Block) returns (r: Regs)
    requires h == IV && block == FirstBlock()
    ensures r == Rounds(h, block, 24) == Regs(0x2d7d8a3f, 0x75292030, 0x4b534dc3, 0xd1210823)
  {
    hide X, Rounds, FirstBlock;
    FirstWords4();
    FirstWords8();
    FirstWords12();
    r := First16(h, block);
    r := NextStep(h, block, 20, r, 0x58575655, Regs(0x783002eb, 0x2d7d8a3f, 0x47ae7c81, 0xd3ee3ed1));
    r := NextStep(h, block, 21, r, 0x7271706f, Regs(0xd3ee3ed1, 0xd1210823, 0x2d7d8a3f, 0x47ae7c81));
    r := NextStep(h, block, 22, r, 0x00803938, Regs(0x47ae7c81, 0x4b534dc3, 0xd1210823, 0x2d7d8a3f));
    r := NextStep(h, block, 23, r, 0x54535251, Regs(0x2d7d8a3f, 0x75292030, 0x4b534dc3, 0xd1210823));
  }

  lemma First24(h: Regs, block: Block) returns (r: Regs)
    requires h == IV && block == FirstBlock()
    ensures r == Rounds(h, block, 28) == Regs(0x9d2a6e33, 0xf2ff6ea0, 0xd473b564, 0x0e8d2e44)
  {
    hide X, Rounds, FirstBlock;
    FirstWords0();
    FirstWords8();
    FirstWords12();
    r := First20(h, block);
    r := NextStep(h, block, 24, r, 0x6e6d6c6b, Regs(0xd1210823, 0x9d2a6e33, 0x75292030, 0x4b534dc3));
    r := NextStep(h, block, 25, r, 0x37363534, Regs(0x4b534dc3, 0x0e8d2e44, 0x9d2a6e33, 0x75292030));
    r := NextStep(h, block, 26, r, 0x504f4e4d, Regs(0x75292030, 0xd473b564, 0x0e8d2e44, 0x9d2a6e33));
    r := NextStep(h, block, 27, r, 0x6a696867, Regs(0x9d2a6e33, 0xf2ff6ea0, 0xd473b564, 0x0e8d2e44));
  }

  lemma First28(h: Regs, block: Block) returns (r: Regs)
    requires h == IV && block == FirstBlock()
    ensures r == Rounds(h, block, 32) == Regs(0x9b085fa9, 0xdd789ecc, 0x5993248f, 0x4400a9bd)
  {
    hide X, Rounds, FirstBlock;
    FirstWords0();
    FirstWords4();
    FirstWords12();
    r := First24(h, block);
    r := NextStep(h, block, 28, r, 0x33323130, Regs(0x0e8d2e44, 0x9b085fa9, 0xf2ff6ea0, 0xd473b564));
    r := NextStep(h, block, 29, r, 0x4c4b4a49, Regs(0xd473b564, 0x4400a9bd, 0x9b085fa9, 0xf2ff6ea0));
    r := NextStep(h, block, 30, r, 0x66656463, Regs(0xf2ff6ea0, 0x5993248f, 0x4400a9bd, 0x9b085fa9));
    r := NextStep(h, block, 31, r, 0x7a797877, Regs(0x9b085fa9, 0xdd789ecc, 0x5993248f, 0x4400a9bd));
  }

  lemma First32(h: Regs, block: Block) returns (r: Regs)
    requires h == IV && block == FirstBlock()
    ensures r == Rounds(h, block, 36) == Regs(0x21c8d2b7, 0x1b9504f8, 0x056ec119, 0x1d55a18e)
  {
    hide X, Rounds, FirstBlock;
    FirstWords4();
    FirstWords8();
    FirstWords12();
    r := First28(h, block);
    r := NextStep(h, block, 32, r, 0x58575655, Regs(0x4400a9bd, 0x21c8d2b7, 0xdd789ecc, 0x5993248f));
    r := NextStep(h, block, 33, r, 0x6a696867, Regs(0x5993248f, 0x1d55a18e, 0x21c8d2b7, 0xdd789ecc));
    r := NextStep(h, block, 34, r, 0x76757473, Regs(0xdd789ecc, 0x056ec119, 0x1d55a18e, 0x21c8d2b7));
    r := NextStep(h, block, 35, r, 0x37363534, Regs(0x21c8d2b7, 0x1b9504f8, 0x056ec119, 0x1d55a18e));
  }

  lemma First36(h: Regs, block: Block) returns (r: Regs)
    requires h == IV && block == FirstBlock()
    ensures r == Rounds(h, block, 40) == Regs(0x436b7fe9, 0xcf0341ed, 0xf404c2f6, 0x075800c1)
  {
    hide X, Rounds, FirstBlock;
    FirstWords0();
    FirstWords4();
    FirstWords8();
    r := First32(h, block);
    r := NextStep(h, block, 36, r, 0x48474645, Regs(0x1d55a18e, 0x436b7fe9, 0x1b9504f8, 0x056ec119));
    r := NextStep(h, block, 37, r, 0x54535251, Regs(0x056ec119, 0x075800c1, 0x436b7fe9, 0x1b9504f8));
    r := NextStep(h, block, 38, r, 0x66656463, Regs(0x1b9504f8, 0xf404c2f6, 0x075800c1, 0x436b7fe9));
    r := NextStep(h, block, 39, r, 0x7271706f, Regs(0x436b7fe9, 0xcf0341ed, 0xf404c2f6, 0x075800c1));
  }

  lemma First40(h: Regs, block: Block) returns (r: Regs)
    requires h == IV && block == FirstBlock()
    ensures r == Rounds(h, block, 44) == Regs(0x888e7d8a, 0x047b9419, 0xce620273, 0xbbdaecd8)
  {
    hide X, Rounds, FirstBlock;
    FirstWords0();
    FirstWords4();
    FirstWords12();
    r := First36(h, block);
    r := NextStep(h, block, 40, r, 0x33323130, Regs(0x075800c1, 0x888e7d8a, 0xcf0341ed, 0xf404c2f6));
    r := NextStep(h, block, 41, r, 0x44434241, Regs(0xf404c2f6, 0xbbdaecd8, 0x888e7d8a, 0xcf0341ed));
    r := NextStep(h, block, 42, r, 0x504f4e4d, Regs(0xcf0341ed, 0xce620273, 0xbbdaecd8, 0x888e7d8a));
    r := NextStep(h, block, 43, r, 0x62615a59, Regs(0x888e7d8a, 0x047b9419, 0xce620273, 0xbbdaecd8));
  }

  lemma First44(h: Regs, block: Block) returns (r: Regs)
    requires h == IV && block == FirstBlock()
    ensures r == Rounds(h, block, 48) == Regs(0x2dbee21d, 0xf166f514, 0xee46e961, 0xe95c3a43)
  {
    hide X, Rounds, FirstBlock;
    FirstWords0();
    FirstWords8();
    FirstWords12();
    r := First40(h, block);
    r := NextStep(h, block, 44, r, 0x6e6d6c6b, Regs(0xbbdaecd8, 0x2dbee21d, 0x047b9419, 0xce620273));
    r := NextStep(h, block, 45, r, 0x7a797877, Regs(0xce620273, 0xe95c3a43, 0x2dbee21d, 0x047b9419));
    r := NextStep(h, block, 46, r, 0x00803938, Regs(0x047b9419, 0xee46e961, 0xe95c3a43, 0x2dbee21d));
    r := NextStep(h, block, 47, r, 0x4c4b4a49, Regs(0x2dbee21d, 0xf166f514, 0xee46e961, 0xe95c3a43));
  }

  lemma First48(h: Regs, block: Block) returns (r: Regs)
    requires h == IV && block == FirstBlock()
    ensures r == Rounds(h, block, 52) == Regs(0xe47fd4f3, 0x7a13bc5c, 0xf22aedcc, 0xfb887751)
  {
    hide X, Rounds, FirstBlock;
    FirstWords0();
    FirstWords4();
    FirstWords12();
    r := First44(h, block);
    r := NextStep(h, block, 48, r, 0x44434241, Regs(0xe95c3a43, 0xe47fd4f3, 0xf166f514, 0xee46e961));
    r := NextStep(h, block, 49, r, 0x66656463, Regs(0xee46e961, 0xfb887751, 0xe47fd4f3, 0xf166f514));
    r := NextStep(h, block, 50, r, 0x37363534, Regs(0xf166f514, 0xf22aedcc, 0xfb887751, 0xe47fd4f3));
    r := NextStep(h, block, 51, r, 0x58575655, Regs(0xe47fd4f3, 0x7a13bc5c, 0xf22aedcc, 0xfb887751));
  }

  lemma First52(h: Regs, block: Block) returns (r: Regs)
    requires h == IV && block == FirstBlock()
    ensures r == Rounds(h, block, 56) == Regs(0xa691d430, 0xefb0e72f, 0x3fc23df6, 0x528452f2)
  {
    hide X, Rounds, FirstBlock;
    FirstWords0();
    FirstWords8();
    FirstWords12();
    r := First48(h, block);
    r := NextStep(h, block, 52, r, 0x7a797877, Regs(0xfb887751, 0xa691d430, 0x7a13bc5c, 0xf22aedcc));
    r := NextStep(h, block, 53, r, 0x504f4e4d, Regs(0xf22aedcc, 0x528452f2, 0xa691d430, 0x7a13bc5c));
    r := NextStep(h, block, 54, r, 0x7271706f, Regs(0x7a13bc5c, 0x3fc23df6, 0x528452f2, 0xa691d430));
    r := NextStep(h, block, 55, r, 0x48474645, Regs(0xa691d430, 0xefb0e72f, 0x3fc23df6, 0x528452f2));
  }

  lemma First56(h: Regs, block: Block) returns (r: Regs)
    requires h == IV && block == FirstBlock()
    ensures r == Rounds(h, block, 60) == Regs(0x27145703, 0x49d9a5b4, 0x374fbe79, 0x21a11069)
  {
    hide X, Rounds, FirstBlock;
    FirstWords4();
    FirstWords8();
    FirstWords12();
    r := First52(h, block);
    r := NextStep(h, block, 56, r, 0x6a696867, Regs(0x528452f2, 0x27145703, 0xefb0e72f, 0x3fc23df6));
    r := NextStep(h, block, 57, r, 0x00803938, Regs(0x3fc23df6, 0x21a11069, 0x27145703, 0xefb0e72f));
    r := NextStep(h, block, 58, r, 0x62615a59, Regs(0xefb0e72f, 0x374fbe79, 0x21a11069, 0x27145703));
    r := NextStep(h, block, 59, r, 0x33323130, Regs(0x27145703, 0x49d9a5b4, 0x374fbe79, 0x21a11069));
  }

  lemma First60(h: Regs, block: Block) returns (r: Regs)
    requires h == IV && block == FirstBlock()
    ensures r == Rounds(h, block, 64) == Regs(0x1cb80f0a, 0xef2e3a46, 0x10f68731, 0xea3d3eb4)
  {
    hide X, Rounds, FirstBlock;
    FirstWords0();
    FirstWords4();
    FirstWords8();
    r := First56(h, block);
    r := NextStep(h, block, 60, r, 0x54535251, Regs(0x21a11069, 0x1cb80f0a, 0x49d9a5b4, 0x374fbe79));
    r := NextStep(h, block, 61, r, 0x76757473, Regs(0x374fbe79, 0xea3d3eb4, 0x1cb80f0a, 0x49d9a5b4));
    r := NextStep(h, block, 62, r, 0x4c4b4a49, Regs(0x49d9a5b4, 0x10f68731, 0xea3d3eb4, 0x1cb80f0a));
    r := NextStep(h, block, 63, r, 0x6e6d6c6b, Regs(0x1cb80f0a, 0xef2e3a46, 0x10f68731, 0xea3d3eb4));
  }

  lemma Second0(h: Regs, block: Block) returns (r: Regs)
    requires h == MIDDLE && block == SecondBlock()
    ensures r == Rounds(h, block, 4) == Regs(0xeda23ed1, 0xddcf0634, 0x3c307338, 0x989939cf)
  {
    assert Rounds(h, block, 0) == h;
    hide X, Rounds, SecondBlock;
    WordsOfSecond();
    r := h;
    r := NextStep(h, block, 0, r, 0x00000000, Regs(0xfa6f932a, 0xeda23ed1, 0xdefbe5cf, 0xa9b1642f));
    r := NextStep(h, block, 1, r, 0x00000000, Regs(0xa9b1642f, 0x989939cf, 0xeda23ed1, 0xdefbe5cf));
    r := NextStep(h, block, 2, r, 0x00000000, Regs(0xdefbe5cf, 0x3c307338, 0x989939cf, 0xeda23ed1));
    r := NextStep(h, block, 3, r, 0x00000000, Regs(0xeda23ed1, 0xddcf0634, 0x3c307338, 0x989939cf));
  }

  lemma Second4(h: Regs, block: Block) returns (r: Regs)
    requires h == MIDDLE && block == SecondBlock()
    ensures r == Rounds(h, block, 8) == Regs(0x75144433, 0x99b6b699, 0xc783cb60, 0xc8875807)
  {
    hide X, Rounds, SecondBlock;
    WordsOfSecond();
    r := Second0(h, block);
    r := NextStep(h, block, 4, r, 0x00000000, Regs(0x989939cf, 0x75144433, 0xddcf0634, 0x3c307338));
    r := NextStep(h, block, 5, r, 0x00000000, Regs(0x3c307338, 0xc8875807, 0x75144433, 0xddcf0634));
    r := NextStep(h, block, 6, r, 0x00000000, Regs(0xddcf0634, 0xc783cb60, 0xc8875807, 0x75144433));
    r := NextStep(h, block, 7, r, 0x00000000, Regs(0x75144433, 0x99b6b699, 0xc783cb60, 0xc8875807));
  }

  lemma Second8(h: Regs, block: Block) returns (r: Regs)
    requires h == MIDDLE && block == SecondBlock()
    ensures r == Rounds(h, block, 12) == Regs(0xa60a3f69, 0x64cc7c5a, 0x64db26e9, 0xaa6630be)
  {
    hide X, Rounds, SecondBlock;
    WordsOfSecond();
    r := Second4(h, block);
    r := NextStep(h, block, 8, r, 0x00000000, Regs(0xc8875807, 0xa60a3f69, 0x99b6b699, 0xc783cb60));
    r := NextStep(h, block, 9, r, 0x00000000, Regs(0xc783cb60, 0xaa6630be, 0xa60a3f69, 0x99b6b699));
    r := NextStep(h, block, 10, r, 0x00000000, Regs(0x99b6b699, 0x64db26e9, 0xaa6630be, 0xa60a3f69));
    r := NextStep(h, block, 11, r, 0x00000000, Regs(0xa60a3f69, 0x64cc7c5a, 0x64db26e9, 0xaa6630be));
  }

  lemma Second12(h: Regs, block: Block) returns (r: Regs)
    requires h == MIDDLE && block == SecondBlock()
    ensures r == Rounds(h, block, 16) == Regs(0xa70737da, 0xa36f556f, 0x96f6586e, 0x5473f8a7)
  {
    hide X, Rounds, SecondBlock;
    WordsOfSecond();
    r := Second8(h, block);
    r := NextStep(h, block, 12, r, 0x00000000, Regs(0xaa6630be, 0xa70737da, 0x64cc7c5a, 0x64db26e9));
    r := NextStep(h, block, 13, r, 0x00000000, Regs(0x64db26e9, 0x5473f8a7, 0xa70737da, 0x64cc7c5a));
    r := NextStep(h, block, 14, r, 0x000001f0, Regs(0x64cc7c5a, 0x96f6586e, 0x5473f8a7, 0xa70737da));
    r := NextStep(h, block, 15, r, 0x00000000, Regs(0xa70737da, 0xa36f556f, 0x96f6586e, 0x5473f8a7));
  }

  lemma Second16(h: Regs, block: Block) returns (r: Regs)
    requires h == MIDDLE && block == SecondBlock()
    ensures r == Rounds(h, block, 20) == Regs(0xa5050ad3, 0x82b8827c, 0x27dcd8b4, 0x28776046)
  {
    hide X, Rounds, SecondBlock;
    WordsOfSecond();
    r := Second12(h, block);
    r := NextStep(h, block, 16, r, 0x00000000, Regs(0x5473f8a7, 0xa5050ad3, 0xa36f556f, 0x96f6586e));
    r := NextStep(h, block, 17, r, 0x00000000, Regs(0x96f6586e, 0x28776046, 0xa5050ad3, 0xa36f556f));
    r := NextStep(h, block, 18, r, 0x00000000, Regs(0xa36f556f, 0x27dcd8b4, 0x28776046, 0xa5050ad3));
    r := NextStep(h, block, 19, r, 0x00000000, Regs(0xa5050ad3, 0x82b8827c, 0x27dcd8b4, 0x28776046));
  }

  lemma Second20(h: Regs, block: Block) returns (r: Regs)
    requires h == MIDDLE && block == SecondBlock()
    ensures r == Rounds(h, block, 24) == Regs(0xe04f070c, 0xdf35cb56, 0xc0d22b61, 0x2f3cd2a2)
  {
    hide X, Rounds, SecondBlock;
    WordsOfSecond();
    r := Second16(h, block);
    r := NextStep(h, block, 20, r, 0x00000000, Regs(0x28776046, 0xe04f070c, 0x82b8827c, 0x27dcd8b4));
    r := NextStep(h, block, 21, r, 0x00000000, Regs(0x27dcd8b4, 0x2f3cd2a2, 0xe04f070c, 0x82b8827c));
    r := NextStep(h, block, 22, r, 0x00000000, Regs(0x82b8827c, 0xc0d22b61, 0x2f3cd2a2, 0xe04f070c));
    r := NextStep(h, block, 23, r, 0x00000000, Regs(0xe04f070c, 0xdf35cb56, 0xc0d22b61, 0x2f3cd2a2));
  }

  lemma Second24(h: Regs, block: Block) returns (r: Regs)
    requires h == MIDDLE && block == SecondBlock()
    ensures r == Rounds(h, block, 28) == Regs(0x242dd210, 0x2291191a, 0x5c295967, 0x576ace33)
  {
    hide X, Rounds, SecondBlock;
    WordsOfSecond();
    r := Second20(h, block);
    r := NextStep(h, block, 24, r, 0x00000000, Regs(0x2f3cd2a2, 0x242dd210, 0xdf35cb56, 0xc0d22b61));
    r := NextStep(h, block, 25, r, 0x000001f0, Regs(0xc0d22b61, 0x576ace33, 0x242dd210, 0xdf35cb56));
    r := NextStep(h, block, 26, r, 0x00000000, Regs(0xdf35cb56, 0x5c295967, 0x576ace33, 0x242dd210));
    r := NextStep(h, block, 27, r, 0x00000000, Regs(0x242dd210, 0x2291191a, 0x5c295967, 0x576ace33));
  }

  lemma Second28(h: Regs, block: Block) returns (r: Regs)
    requires h == MIDDLE && block == SecondBlock()
    ensures r == Rounds(h, block, 32) == Regs(0x24eba695, 0x9c03e2e8, 0x10c42a2f, 0x4bd0378b)
  {
    hide X, Rounds, SecondBlock;
    WordsOfSecond();
    r := Second24(h, block);
    r := NextStep(h, block, 28, r, 0x00000000, Regs(0x576ace33, 0x24eba695, 0x2291191a, 0x5c295967));
    r := NextStep(h, block, 29, r, 0x00000000, Regs(0x5c295967, 0x4bd0378b, 0x24eba695, 0x2291191a));
    r := NextStep(h, block, 30, r, 0x00000000, Regs(0x2291191a, 0x10c42a2f, 0x4bd0378b, 0x24eba695));
    r := NextStep(h, block, 31, r, 0x00000000, Regs(0x24eba695, 0x9c03e2e8, 0x10c42a2f, 0x4bd0378b));
  }

  lemma Second32(h: Regs, block: Block) returns (r: Regs)
    requires h == MIDDLE && block == SecondBlock()
    ensures r == Rounds(h, block, 36) == Regs(0x5be1d526, 0xa2448453, 0x9f4a1a7e, 0x9e414279)
  {
    hide X, Rounds, SecondBlock;
    WordsOfSecond();
    r := Second28(h, block);
    r := NextStep(h, block, 32, r, 0x00000000, Regs(0x4bd0378b, 0x5be1d526, 0x9c03e2e8, 0x10c42a2f));
    r := NextStep(h, block, 33, r, 0x00000000, Regs(0x10c42a2f, 0x9e414279, 0x5be1d526, 0x9c03e2e8));
    r := NextStep(h, block, 34, r, 0x00000000, Regs(0x9c03e2e8, 0x9f4a1a7e, 0x9e414279, 0x5be1d526));
    r := NextStep(h, block, 35, r, 0x000001f0, Regs(0x5be1d526, 0xa2448453, 0x9f4a1a7e, 0x9e414279));
  }

  lemma Second36(h: Regs, block: Block) returns (r: Regs)
    requires h == MIDDLE && block == SecondBlock()
    ensures r == Rounds(h, block, 40) == Regs(0xe14e403d, 0xfe314121, 0x60cc183a, 0xe8cfd670)
  {
    hide X, Rounds, SecondBlock;
    WordsOfSecond();
    r := Second32(h, block);
    r := NextStep(h, block, 36, r, 0x00000000, Regs(0x9e414279, 0xe14e403d, 0xa2448453, 0x9f4a1a7e));
    r := NextStep(h, block, 37, r, 0x00000000, Regs(0x9f4a1a7e, 0xe8cfd670, 0xe14e403d, 0xa2448453));
    r := NextStep(h, block, 38, r, 0x00000000, Regs(0xa2448453, 0x60cc183a, 0xe8cfd670, 0xe14e403d));
    r := NextStep(h, block, 39, r, 0x00000000, Regs(0xe14e403d, 0xfe314121, 0x60cc183a, 0xe8cfd670));
  }

  lemma Second40(h: Regs, block: Block) returns (r: Regs)
    requires h == MIDDLE && block == SecondBlock()
    ensures r == Rounds(h, block, 44) == Regs(0xfff62809, 0x7c7e974c, 0x8cb5221c, 0xe37209ac)
  {
    hide X, Rounds, SecondBlock;
    WordsOfSecond();
    r := Second36(h, block);
    r := NextStep(h, block, 40, r, 0x00000000, Regs(0xe8cfd670, 0xfff62809, 0xfe314121, 0x60cc183a));
    r := NextStep(h, block, 41, r, 0x00000000, Regs(0x60cc183a, 0xe37209ac, 0xfff62809, 0xfe314121));
    r := NextStep(h, block, 42, r, 0x00000000, Regs(0xfe314121, 0x8cb5221c, 0xe37209ac, 0xfff62809));
    r := NextStep(h, block, 43, r, 0x00000000, Regs(0xfff62809, 0x7c7e974c, 0x8cb5221c, 0xe37209ac));
  }

  lemma Second44(h: Regs, block: Block) returns (r: Regs)
    requires h == MIDDLE && block == SecondBlock()
    ensures r == Rounds(h, block, 48) == Regs(0x54c9eb3a, 0x79c0710a, 0x2ec86f72, 0xd4d9c6ac)
  {
    hide X, Rounds, SecondBlock;
    WordsOfSecond();
    r := Second40(h, block);
    r := NextStep(h, block, 44, r, 0x00000000, Regs(0xe37209ac, 0x54c9eb3a, 0x7c7e974c, 0x8cb5221c));
    r := NextStep(h, block, 45, r, 0x00000000, Regs(0x8cb5221c, 0xd4d9c6ac, 0x54c9eb3a, 0x7c7e974c));
    r := NextStep(h, block, 46, r, 0x00000000, Regs(0x7c7e974c, 0x2ec86f72, 0xd4d9c6ac, 0x54c9eb3a));
    r := NextStep(h, block, 47, r, 0x00000000, Regs(0x54c9eb3a, 0x79c0710a, 0x2ec86f72, 0xd4d9c6ac));
  }

  lemma Second48(h: Regs, block: Block) returns (r: Regs)
    requires h == MIDDLE && block == SecondBlock()
    ensures r == Rounds(h, block, 52) == Regs(0x02095af1, 0x2ba98e3f, 0xa8dcfe26, 0x13d245fd)
  {
    hide X, Rounds, SecondBlock;
    WordsOfSecond();
    r := Second44(h, block);
    r := NextStep(h, block, 48, r, 0x00000000, Regs(0xd4d9c6ac, 0x02095af1, 0x79c0710a, 0x2ec86f72));
    r := NextStep(h, block, 49, r, 0x00000000, Regs(0x2ec86f72, 0x13d245fd, 0x02095af1, 0x79c0710a));
    r := NextStep(h, block, 50, r, 0x000001f0, Regs(0x79c0710a, 0xa8dcfe26, 0x13d245fd, 0x02095af1));
    r := NextStep(h, block, 51, r, 0x00000000, Regs(0x02095af1, 0x2ba98e3f, 0xa8dcfe26, 0x13d245fd));
  }

  lemma Second52(h: Regs, block: Block) returns (r: Regs)
    requires h == MIDDLE && block == SecondBlock()
    ensures r == Rounds(h, block, 56) == Regs(0xe126c1aa, 0xfb7bcee0, 0x6f287ff5, 0x96b00fa7)
  {
    hide X, Rounds, SecondBlock;
    WordsOfSecond();
    r := Second48(h, block);
    r := NextStep(h, block, 52, r, 0x00000000, Regs(0x13d245fd, 0xe126c1aa, 0x2ba98e3f, 0xa8dcfe26));
    r := NextStep(h, block, 53, r, 0x00000000, Regs(0xa8dcfe26, 0x96b00fa7, 0xe126c1aa, 0x2ba98e3f));
    r := NextStep(h, block, 54, r, 0x00000000, Regs(0x2ba98e3f, 0x6f287ff5, 0x96b00fa7, 0xe126c1aa));
    r := NextStep(h, block, 55, r, 0x00000000, Regs(0xe126c1aa, 0xfb7bcee0, 0x6f287ff5, 0x96b00fa7));
  }

  lemma Second56(h: Regs, block: Block) returns (r: Regs)
    requires h == MIDDLE && block == SecondBlock()
    ensures r == Rounds(h, block, 60) == Regs(0x452c1099, 0x5ac74608, 0xc197ea8e, 0xca801ba6)
  {
    hide X, Rounds, SecondBlock;
    WordsOfSecond();
    r := Second52(h, block);
    r := NextStep(h, block, 56, r, 0x00000000, Regs(0x96b00fa7, 0x452c1099, 0xfb7bcee0, 0x6f287ff5));
    r := NextStep(h, block, 57, r, 0x00000000, Regs(0x6f287ff5, 0xca801ba6, 0x452c1099, 0xfb7bcee0));
    r := NextStep(h, block, 58, r, 0x00000000, Regs(0xfb7bcee0, 0xc197ea8e, 0xca801ba6, 0x452c1099));
    r := NextStep(h, block, 59, r, 0x00000000, Regs(0x452c1099, 0x5ac74608, 0xc197ea8e, 0xca801ba6));
  }

  lemma Second60(h: Regs, block: Block) returns (r: Regs)
    requires h == MIDDLE && block == SecondBlock()
    ensures r == Rounds(h, block, 64) == Regs(0x14ae42c6, 0x16dd9203, 0x826afd76, 0xa52dae75)
  {
    hide X, Rounds, SecondBlock;
    WordsOfSecond();
    r := Second56(h, block);
    r := NextStep(h, block, 60, r, 0x00000000, Regs(0xca801ba6, 0x14ae42c6, 0x5ac74608, 0xc197ea8e));
    r := NextStep(h, block, 61, r, 0x00000000, Regs(0xc197ea8e, 0xa52dae75, 0x14ae42c6, 0x5ac74608));
    r := NextStep(h, block, 62, r, 0x00000000, Regs(0x5ac74608, 0x826afd76, 0xa52dae75, 0x14ae42c6));
    r := NextStep(h, block, 63, r, 0x00000000, Regs(0x14ae42c6, 0x16dd9203, 0x826afd76, 0xa52dae75));
  }

  // ----- the digest -----

  lemma FirstCompressed()
    ensures Compress(IV, FirstBlock()) == MIDDLE
  {
    var r := First60(IV, FirstBlock());
    hide Rounds, FirstBlock;
  }

  lemma SecondCompressed()
    ensures Compress(MIDDLE, SecondBlock()) == Regs(0x98ab74d1, 0xf5d977d2, 0x2c1c61a5, 0x9f9d419f)
  {
    var r := Second60(MIDDLE, SecondBlock());
    hide Rounds, SecondBlock;
  }

  lemma TwoBlocks(a: Block, b: Block)
    ensures Absorb(Compress, IV, a + b) == Compress(Compress(IV, a), b)
  {
    hide Compress;
    AbsorbBlock(Compress, IV, a, b);
    AbsorbBlock(Compress, IV, [], a);
    NothingBefore(a);
  }

  lemma BytesOf(n: word)
    requires n == 0 || n == 496
    ensures ByteOf(n, 0) == (if n == 0 then 0 else 0xF0) && ByteOf(n, 1) == if n == 0 then 0 else 1
    ensures ByteOf(n, 2) == ByteOf(n, 3) == 0
  {
  }

  lemma Length62()
    ensures LengthBytes(62) == [0xF0, 1, 0, 0, 0, 0, 0, 0]
  {
    hide ByteOf;
    BytesOf(0);
    BytesOf(496);
    assert LowWord(62) == 496 && HighWord(62) == 0;
  }

  lemma MessagePadded()
    ensures |ALPHANUMERIC| == 62
    ensures Padded(ALPHANUMERIC, LengthBytes(62)) == FirstBlock() + SecondBlock()
  {
    Length62();
    hide LengthBytes;
    assert Zeros(57) == [0] + Zeros(56);
  }

  lemma DigestWritten()
    ensures RegsBytes(Regs(0x98ab74d1, 0xf5d977d2, 0x2c1c61a5, 0x9f9d419f)) == [
      0xd1, 0x74, 0xab, 0x98, 0xd2, 0x77, 0xd9, 0xf5, 0xa5, 0x61, 0x1c, 0x2c, 0x9f, 0x41, 0x9d, 0x9f]
  {
  }

  /** The digest of the letters and digits is the published one. */
  lemma AlphanumericDigest()
    ensures Digest(ALPHANUMERIC) == [
      0xd1, 0x74, 0xab, 0x98, 0xd2, 0x77, 0xd9, 0xf5, 0xa5, 0x61, 0x1c, 0x2c, 0x9f, 0x41, 0x9d, 0x9f]
  {
    FirstCompressed();
    SecondCompressed();
    MessagePadded();
    hide Compress, FirstBlock, SecondBlock, Padded, Absorb, LengthBytes;
    TwoBlocks(FirstBlock(), SecondBlock());
    DigestWritten();
  }
}
