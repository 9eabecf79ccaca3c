/** The streaming SHA-1 of brtServer/sha1.cpp, with its unrolled rounds and its
    16-word rolling schedule. */
module Sha1 {
  import opened BlockHash
  import opened Sequences
  import opened Sha1Spec

  // ----- the round macros -----

  function LoadedWord(block: Block, t: nat): bv32
    requires t < 16
  {
    LittleEndian(block[4 * t], block[4 * t + 1], block[4 * t + 2], block[4 * t + 3])
  }

  /** The two masked rotations of SHABLK0 reverse the bytes of a word. */
  lemma SwapBytes(b0: bv8, b1: bv8, b2: bv8, b3: bv8)
    ensures var x := LittleEndian(b0, b1, b2, b3);
      (Rotl(x, 24) & 0xFF00FF00) | (Rotl(x, 8) & 0x00FF00FF) == BigEndian(b0, b1, b2, b3)
  {
  }

  /** The forms of f that the macros compute are the standard's. */
  lemma Choose(t: nat, w: bv32, x: bv32, y: bv32)
    requires t < 20
    ensures (w & (x ^ y)) ^ y == F(t, w, x, y)
  {
  }

  lemma Majority(t: nat, w: bv32, x: bv32, y: bv32)
    requires 40 <= t < 60
    ensures ((w | x) & y) | (w & x) == F(t, w, x, y)
  {
  }

  lemma Parity(t: nat, w: bv32, x: bv32, y: bv32)
    requires 20 <= t < 40 || 60 <= t
    ensures w ^ x ^ y == F(t, w, x, y)
  {
  }

  /** z += f + SHABLK + constant + ROL32(v,5), as every macro adds it up. */
  function Accumulate(z: bv32, f: bv32, b: bv32, k: bv32, v: bv32): bv32 {
    z + (f + b + k + Rotl(v, 5))
  }

  /** The order of the terms does not matter. */
  lemma AccumulateIsTemp(z: bv32, f: bv32, b: bv32, k: bv32, v: bv32)
    ensures Accumulate(z, f, b, k, v) == Temp(v, f, z, b, k)
  {
    hide Rotl;
    Reordered(z, f, b, k, Rotl(v, 5));
  }

  lemma Reordered(z: bv32, f: bv32, b: bv32, k: bv32, r: bv32)
    ensures z + (f + b + k + r) == r + f + z + b + k
  {
  }

  /** The workspace before step t: the words not yet used as loaded, then the last
      sixteen words of the schedule, each in place of the one sixteen earlier. */
  ghost predicate Window(l: seq<bv32>, block: Block, t: nat) {
    && |l| == 16
    && (forall k | 0 <= k < 16 && t <= k :: l[k] == LoadedWord(block, k))
    && (forall k: nat | t - 16 <= k < t :: l[k % 16] == W(block, k))
  }

  /** The registers, in the order the next step names them, and the workspace. */
  ghost predicate At(h: Regs, block: Block, t: nat, a: bv32, b: bv32, c: bv32, d: bv32, e: bv32, l: seq<bv32>) {
    Rounds(h, block, t) == Regs(a, b, c, d, e) && Window(l, block, t)
  }

  method ShaBlk0(l: array<bv32>, i: nat, ghost block: Block) returns (x: bv32)
    requires l.Length == 16 && i < 16 && Window(l[..], block, i)
    modifies l
    ensures x == W(block, i) && Window(l[..], block, i + 1)
  {
    SwapBytes(block[4 * i], block[4 * i + 1], block[4 * i + 2], block[4 * i + 3]);
    hide Rotl, LittleEndian, BigEndian, W;
    assert l[..][i] == LoadedWord(block, i);
    x := (Rotl(l[i], 24) & 0xFF00FF00) | (Rotl(l[i], 8) & 0x00FF00FF);
    assert x == W(block, i) by { FirstWords(block, i); }
    l[i] := x;
    WindowSlides(old(l[..]), l[..], block, i);
  }

  lemma FirstWords(block: Block, t: nat)
    requires t < 16
    ensures W(block, t) == InputWord(block, t)
  {
  }

  lemma LaterWords(block: Block, t: nat)
    requires t >= 16
    ensures W(block, t) == Rotl(W(block, t - 3) ^ W(block, t - 8) ^ W(block, t - 14) ^ W(block, t - 16), 1)
  {
  }

  lemma WindowSlides(l: seq<bv32>, l': seq<bv32>, block: Block, t: nat)
    requires Window(l, block, t) && l' == l[t % 16 := W(block, t)]
    ensures Window(l', block, t + 1)
  {
    hide W, LoadedWord;
    forall k: nat | t + 1 - 16 <= k < t + 1
      ensures l'[k % 16] == W(block, k)
    {
      if k < t {
        DistinctSlots(k, t);
      }
    }
  }

  lemma DistinctSlots(k: nat, t: nat)
    requires k < t < k + 16
    ensures k % 16 != t % 16
  {
  }

  method ShaBlk(l: array<bv32>, i: nat, ghost block: Block) returns (x: bv32)
    requires l.Length == 16 && i >= 16 && Window(l[..], block, i)
    modifies l
    ensures x == W(block, i) && Window(l[..], block, i + 1)
  {
    LaterWords(block, i);
    hide Rotl, W, LoadedWord;
    WindowReads(l[..], block, i);
    x := Rotl(l[(i + 13) % 16] ^ l[(i + 8) % 16] ^ l[(i + 2) % 16] ^ l[i % 16], 1);
    l[i % 16] := x;
    WindowSlides(old(l[..]), l[..], block, i);
  }

  /** Where the four earlier words of the recurrence stand. */
  lemma WindowReads(l: seq<bv32>, block: Block, i: nat)
    requires i >= 16 && Window(l, block, i)
    ensures l[(i + 13) % 16] == W(block, i - 3) && l[(i + 8) % 16] == W(block, i - 8)
    ensures l[(i + 2) % 16] == W(block, i - 14) && l[i % 16] == W(block, i - 16)
  {
    hide W, LoadedWord;
    SameSlot(i - 3);
    SameSlot(i - 8);
    SameSlot(i - 14);
    SameSlot(i - 16);
  }

  lemma SameSlot(k: nat)
    ensures (k + 16) % 16 == k % 16
  {
  }

  /** What one macro does to the registers is one step of the standard. */
  lemma OneStep(h: Regs, block: Block, t: nat, v: bv32, w: bv32, x: bv32, y: bv32, z: bv32, f: bv32, k: bv32)
    requires Rounds(h, block, t) == Regs(v, w, x, y, z) && f == F(t, w, x, y) && k == K(t)
    ensures Rounds(h, block, t + 1) == Regs(Accumulate(z, f, W(block, t), k, v), v, Rotl(w, 30), x, y)
  {
    hide Accumulate, Temp, Rotl, F;
    AccumulateIsTemp(z, f, W(block, t), k, v);
  }

  method R0(v: bv32, w: bv32, x: bv32, y: bv32, z: bv32, i: nat, l: array<bv32>, ghost h: Regs, ghost block: Block)
    returns (z': bv32, w': bv32)
    requires l.Length == 16 && i < 16 && At(h, block, i, v, w, x, y, z, l[..])
    modifies l
    ensures At(h, block, i + 1, z', v, w', x, y, l[..])
  {
    Choose(i, w, x, y);
    hide F;
    OneStep(h, block, i, v, w, x, y, z, (w & (x ^ y)) ^ y, 0x5A827999);
    hide *;
    var b := ShaBlk0(l, i, block);
    z' := Accumulate(z, (w & (x ^ y)) ^ y, b, 0x5A827999, v);
    w' := Rotl(w, 30);
  }

  method R1(v: bv32, w: bv32, x: bv32, y: bv32, z: bv32, i: nat, l: array<bv32>, ghost h: Regs, ghost block: Block)
    returns (z': bv32, w': bv32)
    requires l.Length == 16 && 16 <= i < 20 && At(h, block, i, v, w, x, y, z, l[..])
    modifies l
    ensures At(h, block, i + 1, z', v, w', x, y, l[..])
  {
    Choose(i, w, x, y);
    hide F;
    OneStep(h, block, i, v, w, x, y, z, (w & (x ^ y)) ^ y, 0x5A827999);
    hide *;
    var b := ShaBlk(l, i, block);
    z' := Accumulate(z, (w & (x ^ y)) ^ y, b, 0x5A827999, v);
    w' := Rotl(w, 30);
  }

  method R2(v: bv32, w: bv32, x: bv32, y: bv32, z: bv32, i: nat, l: array<bv32>, ghost h: Regs, ghost block: Block)
    returns (z': bv32, w': bv32)
    requires l.Length == 16 && 20 <= i < 40 && At(h, block, i, v, w, x, y, z, l[..])
    modifies l
    ensures At(h, block, i + 1, z', v, w', x, y, l[..])
  {
    Parity(i, w, x, y);
    hide F;
    OneStep(h, block, i, v, w, x, y, z, w ^ x ^ y, 0x6ED9EBA1);
    hide *;
    var b := ShaBlk(l, i, block);
    z' := Accumulate(z, w ^ x ^ y, b, 0x6ED9EBA1, v);
    w' := Rotl(w, 30);
  }

  method R3(v: bv32, w: bv32, x: bv32, y: bv32, z: bv32, i: nat, l: array<bv32>, ghost h: Regs, ghost block: Block)
    returns (z': bv32, w': bv32)
    requires l.Length == 16 && 40 <= i < 60 && At(h, block, i, v, w, x, y, z, l[..])
    modifies l
    ensures At(h, block, i + 1, z', v, w', x, y, l[..])
  {
    Majority(i, w, x, y);
    hide F;
    OneStep(h, block, i, v, w, x, y, z, ((w | x) & y) | (w & x), 0x8F1BBCDC);
    hide *;
    var b := ShaBlk(l, i, block);
    z' := Accumulate(z, ((w | x) & y) | (w & x), b, 0x8F1BBCDC, v);
    w' := Rotl(w, 30);
  }

  method R4(v: bv32, w: bv32, x: bv32, y: bv32, z: bv32, i: nat, l: array<bv32>, ghost h: Regs, ghost block: Block)
    returns (z': bv32, w': bv32)
    requires l.Length == 16 && 60 <= i < 80 && At(h, block, i, v, w, x, y, z, l[..])
    modifies l
    ensures At(h, block, i + 1, z', v, w', x, y, l[..])
  {
    Parity(i, w, x, y);
    hide F;
    OneStep(h, block, i, v, w, x, y, z, w ^ x ^ y, 0xCA62C1D6);
    hide *;
    var b := ShaBlk(l, i, block);
    z' := Accumulate(z, w ^ x ^ y, b, 0xCA62C1D6, v);
    w' := Rotl(w, 30);
  }

  /** memcpy of the block into the workspace, read as words. */
  method LoadBlock(buffer: Block, ghost h: Regs) returns (l: array<bv32>)
    ensures fresh(l) && l.Length == 16 && At(h, buffer, 0, h.a, h.b, h.c, h.d, h.e, l[..])
  {
    hide LoadedWord;
    l := new bv32[16](i requires 0 <= i < 16 => LoadedWord(buffer, i));
    StartsAt(h, buffer, l[..]);
  }

  lemma StartsAt(h: Regs, block: Block, l: seq<bv32>)
    requires |l| == 16 && forall k | 0 <= k < 16 :: l[k] == LoadedWord(block, k)
    ensures At(h, block, 0, h.a, h.b, h.c, h.d, h.e, l)
  {
  }

  // The 80 macro calls: four rounds of twenty, with the registers renamed instead of moved.

  method Round1(a0: bv32, b0: bv32, c0: bv32, d0: bv32, e0: bv32, l: array<bv32>, ghost h: Regs, ghost block: Block)
    returns (a: bv32, b: bv32, c: bv32, d: bv32, e: bv32)
    requires l.Length == 16 && At(h, block, 0, a0, b0, c0, d0, e0, l[..])
    modifies l
    ensures At(h, block, 20, a, b, c, d, e, l[..])
  {
    hide *;
    a, b, c, d, e := a0, b0, c0, d0, e0;
    e, b := R0(a, b, c, d, e, 0, l, h, block);
    d, a := R0(e, a, b, c, d, 1, l, h, block);
    c, e := R0(d, e, a, b, c, 2, l, h, block);
    b, d := R0(c, d, e, a, b, 3, l, h, block);
    a, c := R0(b, c, d, e, a, 4, l, h, block);
    e, b := R0(a, b, c, d, e, 5, l, h, block);
    d, a := R0(e, a, b, c, d, 6, l, h, block);
    c, e := R0(d, e, a, b, c, 7, l, h, block);
    b, d := R0(c, d, e, a, b, 8, l, h, block);
    a, c := R0(b, c, d, e, a, 9, l, h, block);
    e, b := R0(a, b, c, d, e, 10, l, h, block);
    d, a := R0(e, a, b, c, d, 11, l, h, block);
    c, e := R0(d, e, a, b, c, 12, l, h, block);
    b, d := R0(c, d, e, a, b, 13, l, h, block);
    a, c := R0(b, c, d, e, a, 14, l, h, block);
    e, b := R0(a, b, c, d, e, 15, l, h, block);
    d, a := R1(e, a, b, c, d, 16, l, h, block);
    c, e := R1(d, e, a, b, c, 17, l, h, block);
    b, d := R1(c, d, e, a, b, 18, l, h, block);
    a, c := R1(b, c, d, e, a, 19, l, h, block);
  }

  method Round2(a0: bv32, b0: bv32, c0: bv32, d0: bv32, e0: bv32, l: array<bv32>, ghost h: Regs, ghost block: Block)
    returns (a: bv32, b: bv32, c: bv32, d: bv32, e: bv32)
    requires l.Length == 16 && At(h, block, 20, a0, b0, c0, d0, e0, l[..])
    modifies l
    ensures At(h, block, 40, a, b, c, d, e, l[..])
  {
    hide *;
    a, b, c, d, e := a0, b0, c0, d0, e0;
    e, b := R2(a, b, c, d, e, 20, l, h, block);
    d, a := R2(e, a, b, c, d, 21, l, h, block);
    c, e := R2(d, e, a, b, c, 22, l, h, block);
    b, d := R2(c, d, e, a, b, 23, l, h, block);
    a, c := R2(b, c, d, e, a, 24, l, h, block);
    e, b := R2(a, b, c, d, e, 25, l, h, block);
    d, a := R2(e, a, b, c, d, 26, l, h, block);
    c, e := R2(d, e, a, b, c, 27, l, h, block);
    b, d := R2(c, d, e, a, b, 28, l, h, block);
    a, c := R2(b, c, d, e, a, 29, l, h, block);
    e, b := R2(a, b, c, d, e, 30, l, h, block);
    d, a := R2(e, a, b, c, d, 31, l, h, block);
    c, e := R2(d, e, a, b, c, 32, l, h, block);
    b, d := R2(c, d, e, a, b, 33, l, h, block);
    a, c := R2(b, c, d, e, a, 34, l, h, block);
    e, b := R2(a, b, c, d, e, 35, l, h, block);
    d, a := R2(e, a, b, c, d, 36, l, h, block);
    c, e := R2(d, e, a, b, c, 37, l, h, block);
    b, d := R2(c, d, e, a, b, 38, l, h, block);
    a, c := R2(b, c, d, e, a, 39, l, h, block);
  }

  method Round3(a0: bv32, b0: bv32, c0: bv32, d0: bv32, e0: bv32, l: array<bv32>, ghost h: Regs, ghost block: Block)
    returns (a: bv32, b: bv32, c: bv32, d: bv32, e: bv32)
    requires l.Length == 16 && At(h, block, 40, a0, b0, c0, d0, e0, l[..])
    modifies l
    ensures At(h, block, 60, a, b, c, d, e, l[..])
  {
    hide *;
    a, b, c, d, e := a0, b0, c0, d0, e0;
    e, b := R3(a, b, c, d, e, 40, l, h, block);
    d, a := R3(e, a, b, c, d, 41, l, h, block);
    c, e := R3(d, e, a, b, c, 42, l, h, block);
    b, d := R3(c, d, e, a, b, 43, l, h, block);
    a, c := R3(b, c, d, e, a, 44, l, h, block);
    e, b := R3(a, b, c, d, e, 45, l, h, block);
    d, a := R3(e, a, b, c, d, 46, l, h, block);
    c, e := R3(d, e, a, b, c, 47, l, h, block);
    b, d := R3(c, d, e, a, b, 48, l, h, block);
    a, c := R3(b, c, d, e, a, 49, l, h, block);
    e, b := R3(a, b, c, d, e, 50, l, h, block);
    d, a := R3(e, a, b, c, d, 51, l, h, block);
    c, e := R3(d, e, a, b, c, 52, l, h, block);
    b, d := R3(c, d, e, a, b, 53, l, h, block);
    a, c := R3(b, c, d, e, a, 54, l, h, block);
    e, b := R3(a, b, c, d, e, 55, l, h, block);
    d, a := R3(e, a, b, c, d, 56, l, h, block);
    c, e := R3(d, e, a, b, c, 57, l, h, block);
    b, d := R3(c, d, e, a, b, 58, l, h, block);
    a, c := R3(b, c, d, e, a, 59, l, h, block);
  }

  method Round4(a0: bv32, b0: bv32, c0: bv32, d0: bv32, e0: bv32, l: array<bv32>, ghost h: Regs, ghost block: Block)
    returns (a: bv32, b: bv32, c: bv32, d: bv32, e: bv32)
    requires l.Length == 16 && At(h, block, 60, a0, b0, c0, d0, e0, l[..])
    modifies l
    ensures At(h, block, 80, a, b, c, d, e, l[..])
  {
    hide *;
    a, b, c, d, e := a0, b0, c0, d0, e0;
    e, b := R4(a, b, c, d, e, 60, l, h, block);
    d, a := R4(e, a, b, c, d, 61, l, h, block);
    c, e := R4(d, e, a, b, c, 62, l, h, block);
    b, d := R4(c, d, e, a, b, 63, l, h, block);
    a, c := R4(b, c, d, e, a, 64, l, h, block);
    e, b := R4(a, b, c, d, e, 65, l, h, block);
    d, a := R4(e, a, b, c, d, 66, l, h, block);
    c, e := R4(d, e, a, b, c, 67, l, h, block);
    b, d := R4(c, d, e, a, b, 68, l, h, block);
    a, c := R4(b, c, d, e, a, 69, l, h, block);
    e, b := R4(a, b, c, d, e, 70, l, h, block);
    d, a := R4(e, a, b, c, d, 71, l, h, block);
    c, e := R4(d, e, a, b, c, 72, l, h, block);
    b, d := R4(c, d, e, a, b, 73, l, h, block);
    a, c := R4(b, c, d, e, a, 74, l, h, block);
    e, b := R4(a, b, c, d, e, 75, l, h, block);
    d, a := R4(e, a, b, c, d, 76, l, h, block);
    c, e := R4(d, e, a, b, c, 77, l, h, block);
    b, d := R4(c, d, e, a, b, 78, l, h, block);
    a, c := R4(b, c, d, e, a, 79, l, h, block);
  }

  lemma AllRounds(h: Regs, block: Block, a: bv32, b: bv32, c: bv32, d: bv32, e: bv32, l: seq<bv32>)
    requires At(h, block, 80, a, b, c, d, e, l)
    ensures Compress(h, block) == Plus(h, Regs(a, b, c, d, e))
  {
  }

  class CSha1 {
    const state: array<bv32>
    const count: array<word>
    const buffer: array<bv8>
    const digest: array<bv8>

    /** Everything passed to Update since Reset. */
    ghost var fed: seq<bv8>

    ghost predicate Shape()
      reads this
    {
      state.Length == 5 && count.Length == 2 && buffer.Length == 64 && digest.Length == 20
        && buffer != digest
    }

    function State(): Regs
      requires state.Length == 5
      reads state
    {
      Regs(state[0], state[1], state[2], state[3], state[4])
    }

    /** The object holds exactly the part of fed that it needs: the chaining value of
        the complete blocks, the bytes after them, and eight times the length. */
    ghost predicate Valid()
      reads this, state, count, buffer
    {
      && Shape()
      && State() == Absorb(Compress, IV, fed)
      && Counts(count[0], count[1], |fed|)
      && buffer[..|fed| % 64] == fed[Complete(|fed|)..]
    }

    constructor ()
      ensures Valid() && fed == [] && fresh(state) && fresh(count) && fresh(buffer) && fresh(digest)
    {
      state := new bv32[5];
      count := new word[2];
      buffer := new bv8[64];
      digest := new bv8[20];
      new;
      Reset();
    }

    method Reset()
      requires Shape()
      modifies this`fed, state, count
      ensures Valid() && fed == []
    {
      state[0] := 0x67452301;
      state[1] := 0xEFCDAB89;
      state[2] := 0x98BADCFE;
      state[3] := 0x10325476;
      state[4] := 0xC3D2E1F0;
      count[0] := 0;
      count[1] := 0;
      fed := [];
    }

    /** Add the working variables back into the state. */
    method AddBack(a: bv32, b: bv32, c: bv32, d: bv32, e: bv32)
      requires Shape()
      modifies state
      ensures State() == Plus(old(State()), Regs(a, b, c, d, e))
    {
      hide Add;
      state[0] := Add(state[0], a);
      state[1] := Add(state[1], b);
      state[2] := Add(state[2], c);
      state[3] := Add(state[3], d);
      state[4] := Add(state[4], e);
    }

    /** The compression of one block, in place on the state words. */
    method Transform(block: Block)
      requires Shape()
      modifies state
      ensures State() == Compress(old(State()), block)
    {
      hide At, Compress, Plus;
      ghost var h := State();
      var l := LoadBlock(block, h);
      var a, b, c, d, e := state[0], state[1], state[2], state[3], state[4];
      a, b, c, d, e := Round1(a, b, c, d, e, l, h, block);
      a, b, c, d, e := Round2(a, b, c, d, e, l, h, block);
      a, b, c, d, e := Round3(a, b, c, d, e, l, h, block);
      a, b, c, d, e := Round4(a, b, c, d, e, l, h, block);
      AllRounds(h, block, a, b, c, d, e, l[..]);
      AddBack(a, b, c, d, e);
    }

    method CountBytes(len: word)
      requires Shape() && Counts(count[0], count[1], |fed|)
      modifies count
      ensures Counts(count[0], count[1], |fed| + len)
    {
      CountUpCounts(count[0], count[1], |fed|, len);
      var bits := len * 8 % WORD_COUNT;
      count[0] := (count[0] + bits) % WORD_COUNT;
      if count[0] < bits {
        count[1] := (count[1] + 1) % WORD_COUNT;
      }
      count[1] := (count[1] + len / 0x2000_0000) % WORD_COUNT;
    }

    /** memcpy into the buffer. */
    method CopyIn(j: nat, bytes: seq<bv8>)
      requires j + |bytes| <= buffer.Length
      modifies buffer
      ensures buffer[..j + |bytes|] == old(buffer[..j]) + bytes
    {
      forall k | 0 <= k < |bytes| {
        buffer[j + k] := bytes[k];
      }
    }

    /** ( m_count[0] >> 3 ) & 63: where the next byte goes in the buffer. */
    method Index() returns (j: nat)
      requires Shape() && Counts(count[0], count[1], |fed|)
      ensures j == |fed| % 64
    {
      CountIndex(count[0], count[1], |fed|);
      hide Counts, And;
      And63(count[0] / 8);
      j := And(count[0] / 8, 63);
    }

    /** Hash in more data, of any length a single call can take. */
    method Update(data: seq<bv8>)
      requires Valid() && |data| <= WORD_COUNT - 128
      modifies this`fed, state, count, buffer
      ensures Valid() && fed == old(fed) + data
    {
      var len: word := |data|;
      hide Absorb, Compress, Counts, State, Complete;
      var j := Index();
      CountBytes(len);
      var i, rest := HashBlocks(data, j);
      KeepRest(data, i, rest);
    }

    /** Hash what completes a block; rest bytes of the buffer and the data from i on
        are still to be kept. */
    method HashBlocks(data: seq<bv8>, j: nat) returns (i: nat, rest: nat)
      requires Shape() && j == |fed| % 64
      requires State() == Absorb(Compress, IV, fed) && buffer[..j] == fed[Complete(|fed|)..]
      modifies state, buffer
      ensures i <= |data| && rest <= 64 && State() == Absorb(Compress, IV, fed + data)
      ensures buffer[..rest] + data[i..] == (fed + data)[Complete(|fed + data|)..]
    {
      hide Absorb, Compress, State, Complete;
      if j + |data| > 63 {
        i := FillAndHash(data, j);
        rest := 0;
        NothingBefore(data[i..]);
      } else {
        i, rest := 0, j;
        StillOpen(Compress, IV, fed, data);
        assert data[0..] == data;
      }
    }

    /** The final memcpy: what completes no block waits in the buffer. */
    method KeepRest(data: seq<bv8>, i: nat, j: nat)
      requires Shape() && i <= |data| && j <= 64
      requires State() == Absorb(Compress, IV, fed + data) && Counts(count[0], count[1], |fed + data|)
      requires buffer[..j] + data[i..] == (fed + data)[Complete(|fed + data|)..]
      modifies this`fed, buffer
      ensures Valid() && fed == old(fed) + data
    {
      hide Absorb, Compress, Counts, State, Complete;
      assert |buffer[..j] + data[i..]| == |fed + data| % 64;
      CopyIn(j, data[i..|data|]);
      fed := fed + data;
    }

    /** The branch in which the data completes the buffered block. */
    method FillAndHash(data: seq<bv8>, j: nat) returns (i: nat)
      requires Shape() && j == |fed| % 64 && j + |data| > 63
      requires State() == Absorb(Compress, IV, fed) && buffer[..j] == fed[Complete(|fed|)..]
      modifies state, buffer
      ensures i <= |data| && State() == Absorb(Compress, IV, fed + data)
      ensures Complete(|fed + data|) == |fed| + i && (fed + data)[|fed| + i..] == data[i..]
    {
      hide Absorb, Compress, State;
      i := 64 - j;
      FillBlock(Compress, IV, fed, data[..i]);
      CopyIn(j, data[..i]);
      assert buffer[..] == buffer[..64];
      Transform(buffer[..]);
      i := WholeBlocks(data, i);
      LastPart(Compress, IV, fed, data, i);
    }

    /** The loop over the whole blocks of the data. */
    method WholeBlocks(data: seq<bv8>, from: nat) returns (i: nat)
      requires Shape() && from <= |data| && (|fed| + from) % 64 == 0
      requires State() == Absorb(Compress, IV, fed + data[..from])
      modifies state
      ensures from <= i <= |data| < i + 64 && (|fed| + i) % 64 == 0
      ensures State() == Absorb(Compress, IV, fed + data[..i])
    {
      hide Absorb, Compress, State;
      i := from;
      while i + 63 < |data|
        invariant from <= i <= |data| && (|fed| + i) % 64 == 0
        invariant State() == Absorb(Compress, IV, fed + data[..i])
      {
        NextBlock(Compress, IV, fed, data, i);
        Transform(data[i..i + 64]);
        i := i + 64;
      }
    }

    /** The eight length bytes, read off the counter before any padding. */
    method FinalCount() returns (finalcount: seq<bv8>)
      requires Shape() && Counts(count[0], count[1], |fed|)
      ensures finalcount == LengthBytes(|fed|)
    {
      CountWords(count[0], count[1], |fed|);
      hide Counts, ByteOf, LowWord, HighWord, LengthBytes;
      ghost var length := LengthBytes(|fed|);
      finalcount := [];
      for i := 0 to 8
        invariant finalcount == length[..i]
      {
        LengthByteAt(|fed|, i);
        TakeOneMore(length, i);
        finalcount := finalcount + [ByteOf(count[if i >= 4 then 0 else 1], 3 - i % 4)];
      }
      assert length[..8] == length;
    }

    method Pad()
      requires Valid()
      modifies this`fed, state, count, buffer
      ensures Valid() && fed == old(fed) + [0x80] + Zeros(PadZeros(|old(fed)|))
    {
      hide Absorb, Compress, Counts, State, And, Zeros;
      ghost var m, k := fed, 0;
      Update([0x80]);
      assert fed == m + [0x80] + Zeros(0);
      while true
        invariant Valid() && 0 <= k <= PadZeros(|m|) && fed == m + [0x80] + Zeros(k)
        decreases PadZeros(|m|) - k
      {
        PaddingStops(|m|, k);
        PositionTest(count[0], count[1], |fed|);
        if And(count[0], 504) == 448 {
          break;
        }
        Update([0]);
        OneMoreZero(m + [0x80], k);
        k := k + 1;
      }
    }

    /** The padding and the eight length bytes go through Update. */
    method PadAndCount()
      requires Valid()
      modifies this`fed, state, count, buffer
      ensures Valid() && fed == Padded(old(fed), LengthBytes(|old(fed)|))
    {
      hide Absorb, Compress, Counts, State, LengthBytes;
      var finalcount := FinalCount();
      Pad();
      Update(finalcount);
    }

    /** Pad, append the length, and write out the digest; the working data is wiped. */
    method Final()
      requires Valid()
      modifies this`fed, state, count, buffer, digest
      ensures Shape() && digest[..] == Digest(old(fed))
      ensures count[0] == count[1] == 0 && buffer[..] == Zeros(64)
      ensures State() == Compress(Regs(0, 0, 0, 0, 0), Zeros(64))
    {
      hide Absorb, Compress, Counts, Digest;
      PadAndCount();
      DigestIs(old(fed));
      WriteDigest();
      Wipe();
      Transform(buffer[..]);
    }

    method WriteDigest()
      requires Shape()
      modifies digest
      ensures digest[..] == RegsBytes(State())
    {
      ghost var words := state[..];
      assert words == [state[0], state[1], state[2], state[3], state[4]];
      hide ByteAt, Serialize;
      for i := 0 to 20
        invariant forall k | 0 <= k < i :: digest[k] == Serialize(HighFirst, words)[k]
      {
        SerializedAt(HighFirst, words, i);
        digest[i] := ByteAt(state[i / 4], 3 - i % 4);
      }
    }

    method Wipe()
      requires Shape()
      modifies state, count, buffer
      ensures State() == Regs(0, 0, 0, 0, 0) && count[0] == count[1] == 0 && buffer[..] == Zeros(64)
    {
      forall i | 0 <= i < 64 {
        buffer[i] := 0;
      }
      forall i | 0 <= i < 5 {
        state[i] := 0;
      }
      forall i | 0 <= i < 2 {
        count[i] := 0;
      }
    }

    method GetHash() returns (result: seq<bv8>)
      requires Shape()
      ensures result == digest[..]
    {
      result := digest[..];
    }
  }

  lemma PositionTest(lo: word, hi: word, bytes: nat)
    requires Counts(lo, hi, bytes)
    ensures And(lo, 504) == 448 <==> bytes % 64 == 56
  {
    hide And, Counts;
    And504(lo);
    CountIndex(lo, hi, bytes);
  }

  lemma DigestIs(m: seq<bv8>)
    ensures Digest(m) == RegsBytes(Absorb(Compress, IV, Padded(m, LengthBytes(|m|))))
  {
  }

  /** The sha1 function of util.cpp works on one object shared by all calls; its
      result depends on the input alone. */
  method Sha1(shared: CSha1, input: seq<bv8>) returns (digest: seq<bv8>)
    requires shared.Shape() && |input| <= WORD_COUNT - 128
    modifies shared`fed, shared.state, shared.count, shared.buffer, shared.digest
    ensures shared.Shape() && digest == Digest(input)
  {
    hide Absorb, Compress, Counts, Digest;
    shared.Reset();
    shared.Update(input);
    assert shared.fed == input;
    shared.Final();
    digest := shared.GetHash();
  }

  /** However the message is cut into calls of Update, the digest is that of the
      whole message. */
  method Sha1InChunks(hasher: CSha1, chunks: seq<seq<bv8>>) returns (digest: seq<bv8>)
    requires hasher.Shape() && forall c | c in chunks :: |c| <= WORD_COUNT - 128
    modifies hasher`fed, hasher.state, hasher.count, hasher.buffer, hasher.digest
    ensures digest == Digest(Flatten(chunks))
  {
    hide Absorb, Compress, Counts, Digest;
    hasher.Reset();
    for i := 0 to |chunks|
      invariant hasher.Valid() && hasher.fed + Flatten(chunks[i..]) == Flatten(chunks)
    {
      ConcatAssociative(hasher.fed, chunks[i], Flatten(chunks[i + 1..]));
      assert chunks[i..][1..] == chunks[i + 1..];
      hasher.Update(chunks[i]);
    }
    assert hasher.fed == Flatten(chunks);
    hasher.Final();
    digest := hasher.GetHash();
  }
}
