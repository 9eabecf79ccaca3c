/** The streaming MD5 of brtServer/md5.cpp. */
module Md5 {
  import opened BlockHash
  import opened Md5Spec
  import opened Sequences

  // ----- words and bytes -----

  /** decode undoes encode on one word. */
  lemma WordRoundTrip(x: bv32)
    ensures LittleEndian(ByteAt(x, 0), ByteAt(x, 1), ByteAt(x, 2), ByteAt(x, 3)) == x
  {
  }

  method Decode(block: Block) returns (output: array<bv32>)
    ensures fresh(output) && output.Length == 16 && forall k | 0 <= k < 16 :: output[k] == X(block, k)
  {
    hide LittleEndian;
    output := new bv32[16];
    var i, j := 0, 0;
    while j < 64
      invariant 0 <= i <= 16 && j == 4 * i
      invariant forall k | 0 <= k < i :: output[k] == X(block, k)
    {
      output[i] := LittleEndian(block[j], block[j + 1], block[j + 2], block[j + 3]);
      i, j := i + 1, j + 4;
    }
  }

  method Encode(input: seq<bv32>) returns (output: seq<bv8>)
    ensures output == Serialize(LowFirst, input)
  {
    hide ByteAt, Serialize;
    output := [];
    for i := 0 to |input|
      invariant |output| == 4 * i && forall k | 0 <= k < 4 * i :: output[k] == Serialize(LowFirst, input)[k]
    {
      SerializedAt(LowFirst, input, 4 * i);
      SerializedAt(LowFirst, input, 4 * i + 1);
      SerializedAt(LowFirst, input, 4 * i + 2);
      SerializedAt(LowFirst, input, 4 * i + 3);
      output := output + [ByteAt(input[i], 0), ByteAt(input[i], 1), ByteAt(input[i], 2), ByteAt(input[i], 3)];
    }
  }

  // ----- the step functions -----

  /** The registers, in the order the next step names them. */
  ghost predicate At(h: Regs, block: Block, i: nat, a: bv32, b: bv32, c: bv32, d: bv32) {
    Rounds(h, block, i) == Regs(a, b, c, d)
  }

  /** rotate_left(a + f + x + ac, s) + b. */
  function Accumulate(a: bv32, b: bv32, f: bv32, x: bv32, s: bv6, ac: bv32): (r: bv32)
    requires s <= 32
    ensures r == Mixed(a, b, f, x, ac, s)
  {
    hide Rotl;
    Rotl(a + f + x + ac, s) + b
  }

  lemma OneStep(h: Regs, block: Block, i: nat, a: bv32, b: bv32, c: bv32, d: bv32, f: bv32, x: bv32, s: bv6, ac: bv32)
    requires At(h, block, i, a, b, c, d)
    requires f == Aux(i, b, c, d) && x == X(block, Index(i)) && s == Shift(i) && ac == T(i)
    ensures At(h, block, i + 1, d, Accumulate(a, b, f, x, s, ac), b, c)
  {
  }

  method FF(a: bv32, b: bv32, c: bv32, d: bv32, x: bv32, s: bv6, ac: bv32, ghost i: nat, ghost h: Regs,
            ghost block: Block)
    returns (a': bv32)
    requires i < 16 && At(h, block, i, a, b, c, d)
    requires x == X(block, Index(i)) && s == Shift(i) && ac == T(i)
    ensures At(h, block, i + 1, d, a', b, c)
  {
    assert F(b, c, d) == Aux(i, b, c, d) by { hide F, G, H, I; }
    OneStep(h, block, i, a, b, c, d, F(b, c, d), x, s, ac);
    hide *;
    a' := Accumulate(a, b, F(b, c, d), x, s, ac);
  }

  method GG(a: bv32, b: bv32, c: bv32, d: bv32, x: bv32, s: bv6, ac: bv32, ghost i: nat, ghost h: Regs,
            ghost block: Block)
    returns (a': bv32)
    requires 16 <= i < 32 && At(h, block, i, a, b, c, d)
    requires x == X(block, Index(i)) && s == Shift(i) && ac == T(i)
    ensures At(h, block, i + 1, d, a', b, c)
  {
    assert G(b, c, d) == Aux(i, b, c, d) by { hide F, G, H, I; }
    OneStep(h, block, i, a, b, c, d, G(b, c, d), x, s, ac);
    hide *;
    a' := Accumulate(a, b, G(b, c, d), x, s, ac);
  }

  method HH(a: bv32, b: bv32, c: bv32, d: bv32, x: bv32, s: bv6, ac: bv32, ghost i: nat, ghost h: Regs,
            ghost block: Block)
    returns (a': bv32)
    requires 32 <= i < 48 && At(h, block, i, a, b, c, d)
    requires x == X(block, Index(i)) && s == Shift(i) && ac == T(i)
    ensures At(h, block, i + 1, d, a', b, c)
  {
    assert H(b, c, d) == Aux(i, b, c, d) by { hide F, G, H, I; }
    OneStep(h, block, i, a, b, c, d, H(b, c, d), x, s, ac);
    hide *;
    a' := Accumulate(a, b, H(b, c, d), x, s, ac);
  }

  method II(a: bv32, b: bv32, c: bv32, d: bv32, x: bv32, s: bv6, ac: bv32, ghost i: nat, ghost h: Regs,
            ghost block: Block)
    returns (a': bv32)
    requires 48 <= i < 64 && At(h, block, i, a, b, c, d)
    requires x == X(block, Index(i)) && s == Shift(i) && ac == T(i)
    ensures At(h, block, i + 1, d, a', b, c)
  {
    assert I(b, c, d) == Aux(i, b, c, d) by { hide F, G, H, I; }
    OneStep(h, block, i, a, b, c, d, I(b, c, d), x, s, ac);
    hide *;
    a' := Accumulate(a, b, I(b, c, d), x, s, ac);
  }

  /** The decoded block. */
  ghost predicate Words(x: seq<bv32>, block: Block) {
    |x| == 16 && forall k | 0 <= k < 16 :: x[k] == X(block, k)
  }

  method Round1(a0: bv32, b0: bv32, c0: bv32, d0: bv32, x: seq<bv32>, ghost h: Regs, ghost block: Block)
    returns (a: bv32, b: bv32, c: bv32, d: bv32)
    requires Words(x, block) && At(h, block, 0, a0, b0, c0, d0)
    ensures At(h, block, 16, a, b, c, d)
  {
    hide At, X;
    a, b, c, d := a0, b0, c0, d0;
    a := FF(a, b, c, d, x[0], 7, 0xd76aa478, 0, h, block);
    d := FF(d, a, b, c, x[1], 12, 0xe8c7b756, 1, h, block);
    c := FF(c, d, a, b, x[2], 17, 0x242070db, 2, h, block);
    b := FF(b, c, d, a, x[3], 22, 0xc1bdceee, 3, h, block);
    a := FF(a, b, c, d, x[4], 7, 0xf57c0faf, 4, h, block);
    d := FF(d, a, b, c, x[5], 12, 0x4787c62a, 5, h, block);
    c := FF(c, d, a, b, x[6], 17, 0xa8304613, 6, h, block);
    b := FF(b, c, d, a, x[7], 22, 0xfd469501, 7, h, block);
    a := FF(a, b, c, d, x[8], 7, 0x698098d8, 8, h, block);
    d := FF(d, a, b, c, x[9], 12, 0x8b44f7af, 9, h, block);
    c := FF(c, d, a, b, x[10], 17, 0xffff5bb1, 10, h, block);
    b := FF(b, c, d, a, x[11], 22, 0x895cd7be, 11, h, block);
    a := FF(a, b, c, d, x[12], 7, 0x6b901122, 12, h, block);
    d := FF(d, a, b, c, x[13], 12, 0xfd987193, 13, h, block);
    c := FF(c, d, a, b, x[14], 17, 0xa679438e, 14, h, block);
    b := FF(b, c, d, a, x[15], 22, 0x49b40821, 15, h, block);
  }

  method Round2(a0: bv32, b0: bv32, c0: bv32, d0: bv32, x: seq<bv32>, ghost h: Regs, ghost block: Block)
    returns (a: bv32, b: bv32, c: bv32, d: bv32)
    requires Words(x, block) && At(h, block, 16, a0, b0, c0, d0)
    ensures At(h, block, 32, a, b, c, d)
  {
    hide At, X;
    a, b, c, d := a0, b0, c0, d0;
    a := GG(a, b, c, d, x[1], 5, 0xf61e2562, 16, h, block);
    d := GG(d, a, b, c, x[6], 9, 0xc040b340, 17, h, block);
    c := GG(c, d, a, b, x[11], 14, 0x265e5a51, 18, h, block);
    b := GG(b, c, d, a, x[0], 20, 0xe9b6c7aa, 19, h, block);
    a := GG(a, b, c, d, x[5], 5, 0xd62f105d, 20, h, block);
    d := GG(d, a, b, c, x[10], 9, 0x2441453, 21, h, block);
    c := GG(c, d, a, b, x[15], 14, 0xd8a1e681, 22, h, block);
    b := GG(b, c, d, a, x[4], 20, 0xe7d3fbc8, 23, h, block);
    a := GG(a, b, c, d, x[9], 5, 0x21e1cde6, 24, h, block);
    d := GG(d, a, b, c, x[14], 9, 0xc33707d6, 25, h, block);
    c := GG(c, d, a, b, x[3], 14, 0xf4d50d87, 26, h, block);
    b := GG(b, c, d, a, x[8], 20, 0x455a14ed, 27, h, block);
    a := GG(a, b, c, d, x[13], 5, 0xa9e3e905, 28, h, block);
    d := GG(d, a, b, c, x[2], 9, 0xfcefa3f8, 29, h, block);
    c := GG(c, d, a, b, x[7], 14, 0x676f02d9, 30, h, block);
    b := GG(b, c, d, a, x[12], 20, 0x8d2a4c8a, 31, h, block);
  }

  method Round3(a0: bv32, b0: bv32, c0: bv32, d0: bv32, x: seq<bv32>, ghost h: Regs, ghost block: Block)
    returns (a: bv32, b: bv32, c: bv32, d: bv32)
    requires Words(x, block) && At(h, block, 32, a0, b0, c0, d0)
    ensures At(h, block, 48, a, b, c, d)
  {
    hide At, X;
    a, b, c, d := a0, b0, c0, d0;
    a := HH(a, b, c, d, x[5], 4, 0xfffa3942, 32, h, block);
    d := HH(d, a, b, c, x[8], 11, 0x8771f681, 33, h, block);
    c := HH(c, d, a, b, x[11], 16, 0x6d9d6122, 34, h, block);
    b := HH(b, c, d, a, x[14], 23, 0xfde5380c, 35, h, block);
    a := HH(a, b, c, d, x[1], 4, 0xa4beea44, 36, h, block);
    d := HH(d, a, b, c, x[4], 11, 0x4bdecfa9, 37, h, block);
    c := HH(c, d, a, b, x[7], 16, 0xf6bb4b60, 38, h, block);
    b := HH(b, c, d, a, x[10], 23, 0xbebfbc70, 39, h, block);
    a := HH(a, b, c, d, x[13], 4, 0x289b7ec6, 40, h, block);
    d := HH(d, a, b, c, x[0], 11, 0xeaa127fa, 41, h, block);
    c := HH(c, d, a, b, x[3], 16, 0xd4ef3085, 42, h, block);
    b := HH(b, c, d, a, x[6], 23, 0x4881d05, 43, h, block);
    a := HH(a, b, c, d, x[9], 4, 0xd9d4d039, 44, h, block);
    d := HH(d, a, b, c, x[12], 11, 0xe6db99e5, 45, h, block);
    c := HH(c, d, a, b, x[15], 16, 0x1fa27cf8, 46, h, block);
    b := HH(b, c, d, a, x[2], 23, 0xc4ac5665, 47, h, block);
  }

  method Round4(a0: bv32, b0: bv32, c0: bv32, d0: bv32, x: seq<bv32>, ghost h: Regs, ghost block: Block)
    returns (a: bv32, b: bv32, c: bv32, d: bv32)
    requires Words(x, block) && At(h, block, 48, a0, b0, c0, d0)
    ensures At(h, block, 64, a, b, c, d)
  {
    hide At, X;
    a, b, c, d := a0, b0, c0, d0;
    a := II(a, b, c, d, x[0], 6, 0xf4292244, 48, h, block);
    d := II(d, a, b, c, x[7], 10, 0x432aff97, 49, h, block);
    c := II(c, d, a, b, x[14], 15, 0xab9423a7, 50, h, block);
    b := II(b, c, d, a, x[5], 21, 0xfc93a039, 51, h, block);
    a := II(a, b, c, d, x[12], 6, 0x655b59c3, 52, h, block);
    d := II(d, a, b, c, x[3], 10, 0x8f0ccc92, 53, h, block);
    c := II(c, d, a, b, x[10], 15, 0xffeff47d, 54, h, block);
    b := II(b, c, d, a, x[1], 21, 0x85845dd1, 55, h, block);
    a := II(a, b, c, d, x[8], 6, 0x6fa87e4f, 56, h, block);
    d := II(d, a, b, c, x[15], 10, 0xfe2ce6e0, 57, h, block);
    c := II(c, d, a, b, x[6], 15, 0xa3014314, 58, h, block);
    b := II(b, c, d, a, x[13], 21, 0x4e0811a1, 59, h, block);
    a := II(a, b, c, d, x[4], 6, 0xf7537e82, 60, h, block);
    d := II(d, a, b, c, x[11], 10, 0xbd3af235, 61, h, block);
    c := II(c, d, a, b, x[2], 15, 0x2ad7d2bb, 62, h, block);
    b := II(b, c, d, a, x[9], 21, 0xeb86d391, 63, h, block);
  }

  lemma AllRounds(h: Regs, block: Block, a: bv32, b: bv32, c: bv32, d: bv32)
    requires At(h, block, 64, a, b, c, d)
    ensures Compress(h, block) == Plus(h, Regs(a, b, c, d))
  {
  }

  class Md5 {
    const state: array<bv32>
    const count: array<word>
    const buffer: array<bv8>
    const digest: array<bv8>
    var finalized: bool

    /** Everything passed to Update since the object was made. */
    ghost var fed: seq<bv8>

    ghost predicate Shape()
      reads this
    {
      state.Length == 4 && count.Length == 2 && buffer.Length == 64 && digest.Length == 16 && buffer != digest
    }

    function State(): Regs
      requires state.Length == 4
      reads state
    {
      Regs(state[0], state[1], state[2], state[3])
    }

    ghost predicate Valid()
      reads this, state, count, buffer
    {
      && Shape() && !finalized
      && State() == Absorb(Compress, IV, fed)
      && Counts(count[0], count[1], |fed|)
      && buffer[..|fed| % 64] == fed[Complete(|fed|)..]
    }

    constructor ()
      ensures Valid() && fed == [] && fresh(state) && fresh(count) && fresh(buffer) && fresh(digest)
    {
      state := new bv32[4];
      count := new word[2];
      buffer := new bv8[64];
      digest := new bv8[16];
      finalized := false;
      new;
      Init();
    }

    /** The shortcut: hash a whole string and finalize right away. */
    constructor OfString(text: seq<bv8>)
      requires |text| <= WORD_COUNT - 128
      ensures Shape() && finalized && digest[..] == Digest(text)
    {
      state := new bv32[4];
      count := new word[2];
      buffer := new bv8[64];
      digest := new bv8[16];
      finalized := false;
      new;
      hide Absorb, Compress, Counts, Digest, State;
      Init();
      Update(text);
      assert fed == text;
      Finalize();
    }

    method Init()
      requires Shape()
      modifies this`finalized, this`fed, state, count
      ensures Valid() && fed == []
    {
      finalized := false;
      count[0] := 0;
      count[1] := 0;
      state[0] := 0x67452301;
      state[1] := 0xefcdab89;
      state[2] := 0x98badcfe;
      state[3] := 0x10325476;
      fed := [];
    }

    method AddBack(a: bv32, b: bv32, c: bv32, d: bv32)
      requires Shape()
      modifies state
      ensures State() == Plus(old(State()), Regs(a, b, c, d))
    {
      hide Add;
      state[0] := Add(state[0], a);
      state[1] := Add(state[1], b);
      state[2] := Add(state[2], c);
      state[3] := Add(state[3], d);
    }

    /** Apply the algorithm to one block. */
    method Transform(block: Block)
      requires Shape()
      modifies state
      ensures State() == Compress(old(State()), block)
    {
      ghost var h := State();
      var x := Decode(block);
      var a, b, c, d := state[0], state[1], state[2], state[3];
      assert At(h, block, 0, a, b, c, d) && Words(x[..], block) by { hide X; }
      hide At, Words, Compress, Plus;
      a, b, c, d := Round1(a, b, c, d, x[..], h, block);
      a, b, c, d := Round2(a, b, c, d, x[..], h, block);
      a, b, c, d := Round3(a, b, c, d, x[..], h, block);
      a, b, c, d := Round4(a, b, c, d, x[..], h, block);
      AllRounds(h, block, a, b, c, d);
      AddBack(a, b, c, d);
    }

    method CountBytes(length: word)
      requires Shape() && Counts(count[0], count[1], |fed|)
      modifies count
      ensures Counts(count[0], count[1], |fed| + length)
    {
      CountUpCounts(count[0], count[1], |fed|, length);
      var bits := length * 8 % WORD_COUNT;
      count[0] := (count[0] + bits) % WORD_COUNT;
      if count[0] < bits {
        count[1] := (count[1] + 1) % WORD_COUNT;
      }
      count[1] := (count[1] + length / 0x2000_0000) % WORD_COUNT;
    }

    method CopyIn(index: nat, bytes: seq<bv8>)
      requires index + |bytes| <= buffer.Length
      modifies buffer
      ensures buffer[..index + |bytes|] == old(buffer[..index]) + bytes
    {
      forall k | 0 <= k < |bytes| {
        buffer[index + k] := bytes[k];
      }
    }

    /** Where the next byte goes in the buffer. */
    method Position() returns (index: nat)
      requires Shape() && Counts(count[0], count[1], |fed|)
      ensures index == |fed| % 64
    {
      CountIndex(count[0], count[1], |fed|);
      index := count[0] / 8 % 64;
    }

    /** Continue the digest with more input, of any length a single call can take. */
    method Update(input: seq<bv8>)
      requires Valid() && |input| <= WORD_COUNT - 128
      modifies this`fed, state, count, buffer
      ensures Valid() && fed == old(fed) + input
    {
      var length: word := |input|;
      hide Absorb, Compress, Counts, State, Complete;
      var index := Position();
      CountBytes(length);
      var i, rest := HashBlocks(input, index);
      KeepRest(input, i, rest);
    }

    /** Hash what completes a block; rest bytes of the buffer and the input from i on
        are still to be kept. */
    method HashBlocks(input: seq<bv8>, index: nat) returns (i: nat, rest: nat)
      requires Shape() && index == |fed| % 64
      requires State() == Absorb(Compress, IV, fed) && buffer[..index] == fed[Complete(|fed|)..]
      modifies state, buffer
      ensures i <= |input| && rest <= 64 && State() == Absorb(Compress, IV, fed + input)
      ensures buffer[..rest] + input[i..] == (fed + input)[Complete(|fed + input|)..]
    {
      hide Absorb, Compress, State, Complete;
      var firstpart := 64 - index;
      if |input| >= firstpart {
        i := FillAndHash(input, index);
        rest := 0;
        NothingBefore(input[i..]);
      } else {
        i, rest := 0, index;
        StillOpen(Compress, IV, fed, input);
        assert input[0..] == input;
      }
    }

    /** The branch in which the input completes the buffered block. */
    method FillAndHash(input: seq<bv8>, index: nat) returns (i: nat)
      requires Shape() && index == |fed| % 64 && index + |input| > 63
      requires State() == Absorb(Compress, IV, fed) && buffer[..index] == fed[Complete(|fed|)..]
      modifies state, buffer
      ensures i <= |input| && State() == Absorb(Compress, IV, fed + input)
      ensures Complete(|fed + input|) == |fed| + i && (fed + input)[|fed| + i..] == input[i..]
    {
      hide Absorb, Compress, State;
      i := 64 - index;
      FillBlock(Compress, IV, fed, input[..i]);
      CopyIn(index, input[..i]);
      assert buffer[..] == buffer[..64];
      Transform(buffer[..]);
      i := WholeBlocks(input, i);
      LastPart(Compress, IV, fed, input, i);
    }

    method WholeBlocks(input: seq<bv8>, from: nat) returns (i: nat)
      requires Shape() && from <= |input| && (|fed| + from) % 64 == 0
      requires State() == Absorb(Compress, IV, fed + input[..from])
      modifies state
      ensures from <= i <= |input| < i + 64 && (|fed| + i) % 64 == 0
      ensures State() == Absorb(Compress, IV, fed + input[..i])
    {
      hide Absorb, Compress, State;
      i := from;
      while i + 64 <= |input|
        invariant from <= i <= |input| && (|fed| + i) % 64 == 0
        invariant State() == Absorb(Compress, IV, fed + input[..i])
      {
        NextBlock(Compress, IV, fed, input, i);
        Transform(input[i..i + 64]);
        i := i + 64;
      }
    }

    /** Buffer the remaining input. */
    method KeepRest(input: seq<bv8>, i: nat, index: nat)
      requires Shape() && !finalized && i <= |input| && index <= 64
      requires State() == Absorb(Compress, IV, fed + input) && Counts(count[0], count[1], |fed + input|)
      requires buffer[..index] + input[i..] == (fed + input)[Complete(|fed + input|)..]
      modifies this`fed, buffer
      ensures Valid() && fed == old(fed) + input
    {
      hide Absorb, Compress, Counts, State, Complete;
      assert |buffer[..index] + input[i..]| == |fed + input| % 64;
      CopyIn(index, input[i..|input|]);
      fed := fed + input;
    }

    /** encode applied to the two counter words. */
    method EncodeCount() returns (bits: seq<bv8>)
      requires Shape() && Counts(count[0], count[1], |fed|)
      ensures bits == LengthBytes(|fed|)
    {
      CountWords(count[0], count[1], |fed|);
      hide Counts, ByteOf, LowWord, HighWord;
      bits := [];
      for i := 0 to 2
        invariant i == 0 ==> bits == []
        invariant i == 1 ==> bits == NumberBytes(LowFirst, count[0])
        invariant i == 2 ==> bits == NumberBytes(LowFirst, count[0]) + NumberBytes(LowFirst, count[1])
      {
        bits := bits + [ByteOf(count[i], 0), ByteOf(count[i], 1), ByteOf(count[i], 2), ByteOf(count[i], 3)];
      }
    }

    /** Pad, append the length and store the digest. A second call changes nothing. */
    method Finalize()
      requires Shape() && (!finalized ==> Valid())
      modifies this`fed, this`finalized, state, count, buffer, digest
      ensures Shape() && finalized
      ensures !old(finalized) ==> digest[..] == Digest(old(fed)) && count[0] == count[1] == 0 && buffer[..] == Zeros(64)
      ensures old(finalized) ==> fed == old(fed) && unchanged(state, count, buffer, digest)
    {
      if !finalized {
        ghost var m := fed;
        hide Absorb, Compress, Counts, Digest, State;
        var bits := EncodeCount();
        var index := Position();
        var padLen := if index < 56 then 56 - index else 120 - index;
        Update(([0x80] + Zeros(63))[..padLen]);
        PaddingPrefix(m, padLen);
        Update(bits);
        DigestIs(m);
        StoreDigest();
        Wipe();
        finalized := true;
      }
    }

    method StoreDigest()
      requires Shape()
      modifies digest
      ensures digest[..] == RegsBytes(State())
    {
      assert state[..] == [state[0], state[1], state[2], state[3]];
      hide Serialize;
      var bytes := Encode(state[..]);
      forall k | 0 <= k < 16 {
        digest[k] := bytes[k];
      }
    }

    method Wipe()
      requires Shape()
      modifies count, buffer
      ensures count[0] == count[1] == 0 && buffer[..] == Zeros(64)
    {
      forall k | 0 <= k < 64 {
        buffer[k] := 0;
      }
      forall k | 0 <= k < 2 {
        count[k] := 0;
      }
    }
  }

  /** The slice of the static padding that Finalize feeds is the padding of the
      standard without the length. */
  lemma PaddingPrefix(m: seq<bv8>, padLen: nat)
    requires padLen == if |m| % 64 < 56 then 56 - |m| % 64 else 120 - |m| % 64
    ensures m + ([0x80] + Zeros(63))[..padLen] + LengthBytes(|m|) == Padded(m, LengthBytes(|m|))
  {
    hide LengthBytes;
    var pad: seq<bv8> := [0x80] + Zeros(63);
    assert pad[..padLen] == [0x80] + Zeros(PadZeros(|m|));
    ConcatAssociative(m, [0x80], Zeros(PadZeros(|m|)));
  }

  lemma DigestIs(m: seq<bv8>)
    ensures Digest(m) == RegsBytes(Absorb(Compress, IV, Padded(m, LengthBytes(|m|))))
  {
  }

  /** However the input is cut into calls of Update, the digest is that of the whole. */
  method Md5InChunks(chunks: seq<seq<bv8>>) returns (digest: seq<bv8>)
    requires forall c | c in chunks :: |c| <= WORD_COUNT - 128
    ensures digest == Digest(Flatten(chunks))
  {
    hide Absorb, Compress, Counts, Digest;
    var md5 := new Md5();
    for i := 0 to |chunks|
      invariant fresh(md5) && fresh(md5.state) && fresh(md5.count) && fresh(md5.buffer) && fresh(md5.digest)
      invariant md5.Valid() && md5.fed + Flatten(chunks[i..]) == Flatten(chunks)
    {
      ConcatAssociative(md5.fed, chunks[i], Flatten(chunks[i + 1..]));
      assert chunks[i..][1..] == chunks[i + 1..];
      md5.Update(chunks[i]);
    }
    assert md5.fed == Flatten(chunks);
    md5.Finalize();
    digest := md5.digest[..];
  }
}
