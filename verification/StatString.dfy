/** The stat-string codec of brtServer/util.cpp. Seven bytes at a time are made
    odd, and a mask byte in front of them remembers which were odd already. */
module StatString {
  import opened Bytes
  import opened Sequences

  // ----- bits of a byte, as shifts -----

  /** (m & (1 << k)) != 0 */
  predicate HasBit(m: nat, k: nat)
    decreases k, m
  {
    if k == 0 then m % 2 == 1 else HasBit(m / 2, k - 1)
  }

  /** m | (1 << k) */
  function SetBit(m: nat, k: nat): nat
    decreases k, m
  {
    if k == 0 then m + 1 - m % 2 else m % 2 + 2 * SetBit(m / 2, k - 1)
  }

  /** A number taken apart into its lowest binary digit and the others. */
  lemma LowestDigit(low: nat, n: nat)
    requires low < 2
    ensures (low + 2 * n) % 2 == low && (low + 2 * n) / 2 == n
  {
  }

  lemma SetHigher(low: nat, n: nat, k: nat)
    requires low < 2
    ensures SetBit(low + 2 * n, k + 1) == low + 2 * SetBit(n, k)
  {
    LowestDigit(low, n);
  }

  lemma HasHigher(low: nat, n: nat, k: nat)
    requires low < 2
    ensures HasBit(low + 2 * n, k + 1) == HasBit(n, k) && HasBit(low + 2 * n, 0) == (low == 1)
  {
    LowestDigit(low, n);
  }

  lemma SetLowest(low: nat, n: nat)
    requires low < 2
    ensures SetBit(low + 2 * n, 0) == 1 + 2 * n
  {
    LowestDigit(low, n);
  }

  /** Setting a bit sets that bit and no other. */
  lemma {:induction false} SetBitExact(m: nat, k: nat, j: nat)
    ensures HasBit(SetBit(m, k), j) <==> j == k || HasBit(m, j)
    decreases k, m
  {
    hide HasBit, SetBit;
    var low, n := m % 2, m / 2;
    assert m == low + 2 * n;
    if k == 0 {
      SetLowest(low, n);
    } else {
      SetHigher(low, n, k - 1);
    }
    var high := if k == 0 then n else SetBit(n, k - 1);
    var lowSet := if k == 0 then 1 else low;
    if j == 0 {
      HasHigher(low, n, 0);
      HasHigher(lowSet, high, 0);
    } else {
      HasHigher(low, n, j - 1);
      HasHigher(lowSet, high, j - 1);
      if k > 0 {
        SetBitExact(n, k - 1, j - 1);
      }
    }
  }

  function Power2(k: nat): nat {
    if k == 0 then 1 else 2 * Power2(k - 1)
  }

  // ----- one group -----

  predicate IsOdd(b: byte) {
    b as int % 2 == 1
  }

  function MakeOdd(b: byte): (r: byte)
    ensures IsOdd(r)
  {
    if b as int % 2 == 0 then (b as int + 1) as byte else b
  }

  function MakeAllOdd(g: seq<byte>): (r: seq<byte>)
    ensures |r| == |g| && forall j | 0 <= j < |r| :: r[j] == MakeOdd(g[j])
  {
    seq(|g|, j requires 0 <= j < |g| => MakeOdd(g[j]))
  }

  /** The parities of g as a number, the first byte lowest. */
  function Parities(g: seq<byte>): (n: nat)
    ensures n < Power2(|g|)
  {
    if g == [] then 0 else (g[0] as int % 2) + 2 * Parities(g[1..])
  }

  function Mask(g: seq<byte>): (m: byte)
    requires |g| <= 7
    ensures IsOdd(m)
  {
    MaskFits(|g|);
    (1 + 2 * Parities(g)) as byte
  }

  lemma MaskFits(n: nat)
    requires n <= 7
    ensures Power2(n) <= 128
  {
    if n < 7 {
      Power2Grows(n, 7);
    }
  }

  lemma {:induction false} Power2Grows(a: nat, b: nat)
    requires a <= b
    ensures Power2(a) <= Power2(b)
    decreases b
  {
    if a < b {
      Power2Grows(a, b - 1);
    }
  }

  lemma {:induction false} ParityBit(g: seq<byte>, j: nat)
    requires j < |g|
    ensures HasBit(Parities(g), j) <==> IsOdd(g[j])
    decreases |g|
  {
    hide HasBit;
    HasHigher(g[0] as int % 2, Parities(g[1..]), if j == 0 then 0 else j - 1);
    if j > 0 {
      ParityBit(g[1..], j - 1);
    }
  }

  /** Bit j + 1 of a mask tells the parity of byte j. */
  lemma MaskBit(g: seq<byte>, j: nat)
    requires |g| <= 7 && j < |g|
    ensures HasBit(Mask(g) as int, j + 1) <==> IsOdd(g[j])
  {
    hide HasBit, Parities;
    ParityBit(g, j);
    HasHigher(1, Parities(g), j);
  }

  lemma ParitiesFront(g: seq<byte>)
    ensures Parities(g) == if g == [] then 0 else (g[0] as int % 2) + 2 * Parities(g[1..])
  {
  }

  lemma {:induction false} ParitiesSnoc(g: seq<byte>, b: byte)
    ensures Parities(g + [b]) == if IsOdd(b) then SetBit(Parities(g), |g|) else Parities(g)
  {
    hide SetBit, Parities;
    ParitiesFront(g);
    ParitiesFront(g + [b]);
    ParitiesFront([]);
    if g == [] {
      NothingBefore([b]);
      SetLowest(0, 0);
    } else {
      Front(g, [b]);
      ParitiesSnoc(g[1..], b);
      SetHigher(g[0] as int % 2, Parities(g[1..]), |g| - 1);
    }
  }

  /** What the encoder's loop does to its mask. */
  lemma MaskSnoc(g: seq<byte>, b: byte)
    requires |g| < 7
    ensures Mask(g + [b]) as int == if IsOdd(b) then SetBit(Mask(g) as int, |g| + 1) else Mask(g) as int
  {
    hide SetBit, Parities;
    ParitiesSnoc(g, b);
    SetHigher(1, Parities(g), |g|);
  }

  function EncodeGroup(g: seq<byte>): seq<byte>
    requires |g| <= 7
  {
    [Mask(g)] + MakeAllOdd(g)
  }

  /** One decoded byte: a clear bit means the byte had been incremented. */
  function Restore(mask: byte, b: byte, k: nat): byte {
    if HasBit(mask as int, k) then b else ((b as int - 1) % 256) as byte
  }

  function DecodeGroup(mask: byte, g: seq<byte>): (r: seq<byte>)
    ensures |r| == |g| && forall j | 0 <= j < |r| :: r[j] == Restore(mask, g[j], j + 1)
  {
    seq(|g|, j requires 0 <= j < |g| => Restore(mask, g[j], j + 1))
  }

  lemma GroupRoundTrip(g: seq<byte>)
    requires |g| <= 7
    ensures DecodeGroup(Mask(g), MakeAllOdd(g)) == g
  {
    hide HasBit, Mask;
    forall j | 0 <= j < |g|
      ensures Restore(Mask(g), MakeOdd(g[j]), j + 1) == g[j]
    {
      MaskBit(g, j);
    }
  }

  // ----- whole strings -----

  function Encode(data: seq<byte>): seq<byte> {
    if data == [] then []
    else
      var n := Min(7, |data|);
      EncodeGroup(data[..n]) + Encode(data[n..])
  }

  function Decode(data: seq<byte>): seq<byte> {
    if data == [] then []
    else
      var n := Min(8, |data|);
      DecodeGroup(data[0], data[1..n]) + Decode(data[n..])
  }

  lemma DecodeFront(g: seq<byte>, rest: seq<byte>)
    requires 0 < |g| <= 7 && (|g| < 7 ==> rest == [])
    ensures Decode(EncodeGroup(g) + rest) == g + Decode(rest)
  {
    hide Mask, Restore, MakeAllOdd;
    var d := EncodeGroup(g) + rest;
    var n := |g| + 1;
    assert n == Min(8, |d|);
    assert d[0] == Mask(g) && d[1..n] == MakeAllOdd(g) && d[n..] == rest;
    GroupRoundTrip(g);
  }

  /** Decoding undoes encoding, on every byte string. */
  lemma {:induction false} RoundTrip(data: seq<byte>)
    ensures Decode(Encode(data)) == data
  {
    hide Decode, EncodeGroup;
    if data != [] {
      var n := Min(7, |data|);
      RoundTrip(data[n..]);
      DecodeFront(data[..n], Encode(data[n..]));
      assert data[..n] + data[n..] == data;
    } else {
      DecodeNothing();
    }
  }

  lemma DecodeNothing()
    ensures Decode([]) == []
  {
  }

  /** Every encoded byte is odd, so there is no zero among them. */
  lemma {:induction false} EncodedOdd(data: seq<byte>)
    ensures forall i | 0 <= i < |Encode(data)| :: IsOdd(Encode(data)[i])
    ensures 0 !in Encode(data)
  {
    hide Mask;
    if data != [] {
      var n := Min(7, |data|);
      EncodedOdd(data[n..]);
    }
  }

  /** One mask byte per seven bytes or part of seven. */
  lemma {:induction false} EncodedLength(data: seq<byte>)
    ensures |Encode(data)| == |data| + (|data| + 6) / 7
  {
    hide Mask, MakeAllOdd;
    if data != [] {
      var n := Min(7, |data|);
      EncodedLength(data[n..]);
    }
  }

  /** Byte b stands where byte i of the data belongs: behind the mask bytes of its group
      and of those before, made odd if it was not, with its parity in bit i % 7 + 1 of
      its group's mask. */
  predicate PlacedAt(e: seq<byte>, b: byte, i: nat) {
    && i + i / 7 + 1 < |e|
    && e[i + i / 7 + 1] as int == (if b as int % 2 == 0 then b as int + 1 else b as int)
    && (HasBit(e[i / 7 * 8] as int, i % 7 + 1) <==> b as int % 2 == 1)
  }

  lemma PlacedBehind(front: seq<byte>, e: seq<byte>, b: byte, i: nat)
    requires |front| == 8 && i >= 7 && PlacedAt(e, b, i - 7)
    ensures PlacedAt(front + e, b, i)
  {
    hide HasBit;
    assert (i - 7) / 7 == i / 7 - 1 && (i - 7) % 7 == i % 7;
  }

  lemma PlacedInGroup(g: seq<byte>, rest: seq<byte>, i: nat)
    requires |g| <= 7 && i < |g|
    ensures PlacedAt(EncodeGroup(g) + rest, g[i], i)
  {
    hide HasBit, Mask;
    MaskBit(g, i);
    assert i / 7 == 0 && i % 7 == i;
  }

  lemma {:induction false} EncodedAt(data: seq<byte>, i: nat)
    requires i < |data|
    ensures PlacedAt(Encode(data), data[i], i)
    decreases i
  {
    hide EncodeGroup, PlacedAt;
    var n := Min(7, |data|);
    if i < 7 {
      PlacedInGroup(data[..n], Encode(data[n..]), i);
    } else {
      GroupSize(data[..7]);
      EncodedAt(data[7..], i - 7);
      PlacedBehind(EncodeGroup(data[..7]), Encode(data[7..]), data[i], i);
    }
  }

  /** Byte b stands where byte i of the encoded string, not a mask, leaves it: as it was
      when bit i % 8 of its group's mask is set, one less, modulo 256, when it is not. */
  predicate RestoredAt(d: seq<byte>, mask: byte, b: byte, i: nat)
    requires i % 8 != 0
  {
    && i - i / 8 - 1 < |d|
    && d[i - i / 8 - 1] as int
       == if HasBit(mask as int, i % 8) then b as int else if b == 0 then 255 else b as int - 1
  }

  lemma RestoredBehind(front: seq<byte>, d: seq<byte>, mask: byte, b: byte, i: nat)
    requires |front| == 7 && i > 8 && i % 8 != 0 && (i - 8) % 8 != 0 && RestoredAt(d, mask, b, i - 8)
    ensures RestoredAt(front + d, mask, b, i)
  {
    hide HasBit;
    assert (i - 8) / 8 == i / 8 - 1 && (i - 8) % 8 == i % 8;
  }

  lemma RestoredInGroup(mask: byte, g: seq<byte>, rest: seq<byte>, i: nat)
    requires |g| <= 7 && 0 < i <= |g|
    ensures RestoredAt(DecodeGroup(mask, g) + rest, mask, g[i - 1], i)
  {
    hide HasBit;
    assert i / 8 == 0 && i % 8 == i;
  }

  lemma {:induction false} DecodedAt(data: seq<byte>, i: nat)
    requires i < |data| && i % 8 != 0
    ensures RestoredAt(Decode(data), data[i / 8 * 8], data[i], i)
    decreases i
  {
    hide DecodeGroup, RestoredAt;
    var n := Min(8, |data|);
    if i < 8 {
      RestoredInGroup(data[0], data[1..n], Decode(data[n..]), i);
    } else {
      DecodedAt(data[8..], i - 8);
      assert data[8..][(i - 8) / 8 * 8] == data[i / 8 * 8];
      RestoredBehind(DecodeGroup(data[0], data[1..8]), Decode(data[8..]), data[i / 8 * 8], data[i], i);
    }
  }

  lemma GroupSize(g: seq<byte>)
    requires |g| <= 7
    ensures |EncodeGroup(g)| == |g| + 1
  {
  }

  lemma ParitiesCons(b: byte, g: seq<byte>)
    ensures Parities([b] + g) == b as int % 2 + 2 * Parities(g)
  {
    assert ([b] + g)[1..] == g;
  }

  lemma EightMasks()
    ensures Parities([2, 3, 4, 5, 6, 7, 8]) == 42 && Parities([9]) == 1
  {
    hide Parities;
    ParitiesFront([]);
    ParitiesCons(9, []);
    ParitiesCons(8, []);
    ParitiesCons(7, [8]);
    ParitiesCons(6, [7, 8]);
    ParitiesCons(5, [6, 7, 8]);
    ParitiesCons(4, [5, 6, 7, 8]);
    ParitiesCons(3, [4, 5, 6, 7, 8]);
    ParitiesCons(2, [3, 4, 5, 6, 7, 8]);
    assert [9] + [] == [9] && [8] + [] == [8] && [7] + [8] == [7, 8] && [6] + [7, 8] == [6, 7, 8];
    assert [5] + [6, 7, 8] == [5, 6, 7, 8] && [4] + [5, 6, 7, 8] == [4, 5, 6, 7, 8];
    assert [3] + [4, 5, 6, 7, 8] == [3, 4, 5, 6, 7, 8] && [2] + [3, 4, 5, 6, 7, 8] == [2, 3, 4, 5, 6, 7, 8];
  }

  lemma TwoGroups()
    ensures EncodeGroup([2, 3, 4, 5, 6, 7, 8]) == [85, 3, 3, 5, 5, 7, 7, 9] && EncodeGroup([9]) == [3, 9]
  {
    hide Parities;
    EightMasks();
    assert MakeAllOdd([2, 3, 4, 5, 6, 7, 8]) == [3, 3, 5, 5, 7, 7, 9] && MakeAllOdd([9]) == [9];
  }

  /** Eight bytes: masks 85 and 3, which are 1010101 and 11 in binary. */
  lemma EightBytes()
    ensures Encode([2, 3, 4, 5, 6, 7, 8, 9]) == [85, 3, 3, 5, 5, 7, 7, 9, 3, 9]
  {
    hide Encode, EncodeGroup;
    var data: seq<byte> := [2, 3, 4, 5, 6, 7, 8, 9];
    assert data[0..] == data && data[0..7] == [2, 3, 4, 5, 6, 7, 8] && data[7..8] == [9];
    GroupCloses(data, 0, 7);
    GroupCloses(data, 7, 8);
    EncodeNothing(data);
    TwoGroups();
  }

  // ----- the loops -----

  lemma GroupGrows(data: seq<byte>, start: nat, i: nat)
    requires start <= i < |data| && i - start < 7
    ensures Mask(data[start..i + 1]) as int
      == if IsOdd(data[i]) then SetBit(Mask(data[start..i]) as int, i - start + 1) else Mask(data[start..i]) as int
    ensures MakeAllOdd(data[start..i + 1]) == MakeAllOdd(data[start..i]) + [MakeOdd(data[i])]
  {
    hide Mask, SetBit;
    assert data[start..i + 1] == data[start..i] + [data[i]];
    MaskSnoc(data[start..i], data[i]);
  }

  lemma GroupCloses(data: seq<byte>, start: nat, end: nat)
    requires start < end <= |data| && (end == start + 7 || (end < start + 7 && end == |data|))
    ensures Encode(data[start..]) == EncodeGroup(data[start..end]) + Encode(data[end..])
  {
    hide EncodeGroup;
    var d := data[start..];
    assert end - start == Min(7, |d|);
    assert d[..end - start] == data[start..end] && d[end - start..] == data[end..];
  }

  method EncodeStatString(data: seq<byte>) returns (result: seq<byte>)
    ensures result == Encode(data)
  {
    hide Encode, Mask, SetBit, MakeAllOdd;
    var mask: byte := 1;
    result := [];
    ghost var done, start: nat := [], 0;
    EmptyGroup(data, 0);
    assert data[0..] == data;
    for i := 0 to |data|
      invariant start == if i < |data| then i - i % 7 else i
      invariant i - start < 7 && mask == Mask(data[start..i])
      invariant result == done + MakeAllOdd(data[start..i])
      invariant done + Encode(data[start..]) == Encode(data)
    {
      GroupGrows(data, start, i);
      ghost var odd := MakeAllOdd(data[start..i + 1]);
      ConcatAssociative(done, MakeAllOdd(data[start..i]), [MakeOdd(data[i])]);
      if data[i] as int % 2 == 0 {
        result := result + [(data[i] as int + 1) as byte];
      } else {
        result := result + [data[i]];
        mask := SetBit(mask as int, i % 7 + 1) as byte;
      }
      if i % 7 == 6 || i == |data| - 1 {
        var at := |result| - 1 - i % 7;
        GroupCloses(data, start, i + 1);
        ConcatAssociative(done, EncodeGroup(data[start..i + 1]), Encode(data[i + 1..]));
        Splice(done, odd, mask);
        result := result[..at] + [mask] + result[at..];
        done, start := result, i + 1;
        EmptyGroup(data, i + 1);
        mask := 1;
      }
    }
    EncodeNothing(data);
    EmptyGroup(data, |data|);
    assert done + [] == done;
  }

  lemma EmptyGroup(data: seq<byte>, i: nat)
    requires i <= |data|
    ensures data[i..i] == [] && Mask([]) == 1 && MakeAllOdd([]) == []
  {
  }

  lemma EncodeNothing(data: seq<byte>)
    ensures Encode(data[|data|..]) == []
  {
  }

  lemma Splice(done: seq<byte>, odd: seq<byte>, mask: byte)
    ensures (done + odd)[..|done|] + [mask] + (done + odd)[|done|..] == done + ([mask] + odd)
  {
  }

  lemma DecodeGrows(data: seq<byte>, done: seq<byte>, start: nat, i: nat)
    requires start < i < |data|
    ensures done + DecodeGroup(data[start], data[start + 1..i + 1])
      == done + DecodeGroup(data[start], data[start + 1..i]) + [Restore(data[start], data[i], i - start)]
  {
    hide Restore;
    TakeOneMore(data[start + 1..], i - start - 1);
    assert data[start + 1..][..i - start] == data[start + 1..i + 1];
    assert data[start + 1..][..i - start - 1] == data[start + 1..i];
    DecodeGroupSnoc(data[start], data[start + 1..i], data[i]);
  }

  lemma DecodeGroupSnoc(mask: byte, g: seq<byte>, b: byte)
    ensures DecodeGroup(mask, g + [b]) == DecodeGroup(mask, g) + [Restore(mask, b, |g| + 1)]
  {
    hide Restore;
  }

  lemma DecodeCloses(data: seq<byte>, start: nat, end: nat)
    requires start < end <= |data| && (end == start + 8 || (end < start + 8 && end == |data|))
    ensures Decode(data[start..]) == DecodeGroup(data[start], data[start + 1..end]) + Decode(data[end..])
  {
    hide DecodeGroup;
    var d := data[start..];
    assert end - start == Min(8, |d|) && d[0] == data[start];
    assert d[1..end - start] == data[start + 1..end] && d[end - start..] == data[end..];
  }

  /** A complete group joins what has been decoded. */
  lemma DecodedSoFar(data: seq<byte>, done: seq<byte>, start: nat, end: nat)
    requires start < end <= |data| && (end == start + 8 || (end < start + 8 && end == |data|))
    ensures done + Decode(data[start..])
      == done + DecodeGroup(data[start], data[start + 1..end]) + Decode(data[end..])
  {
    hide Decode, DecodeGroup;
    DecodeCloses(data, start, end);
    ConcatAssociative(done, DecodeGroup(data[start], data[start + 1..end]), Decode(data[end..]));
  }

  /** Where position i stands in the group that begins at start. */
  lemma InGroup(start: nat, i: nat)
    requires start % 8 == 0 && start < i <= start + 8
    ensures if i % 8 == 0 then i == start + 8 else i < start + 8 && i % 8 == i - start
  {
  }

  method DecodeStatString(data: seq<byte>) returns (result: seq<byte>)
    ensures result == Decode(data)
  {
    hide Decode, DecodeGroup, HasBit;
    var mask: byte := 0;
    result := [];
    ghost var done: seq<byte>, start: nat := [], 0;
    DecodeEnds(data);
    for i := 0 to |data|
      invariant start % 8 == 0 && start <= i <= start + 8 && (start == i ==> i == 0)
      invariant i > 0 ==> mask == data[start] && result == done + DecodeGroup(data[start], data[start + 1..i])
      invariant i == 0 ==> result == done
      invariant done + Decode(data[start..]) == Decode(data)
    {
      if i > 0 {
        InGroup(start, i);
      }
      if i % 8 == 0 {
        mask := data[i];
        if i > 0 {
          DecodedSoFar(data, done, start, i);
          done, start := result, i;
        }
        DecodeNone(data, i);
      } else {
        DecodeGrows(data, done, start, i);
        if !HasBit(mask as int, i % 8) {
          result := result + [((data[i] as int - 1) % 256) as byte];
        } else {
          result := result + [data[i]];
        }
      }
    }
    if data != [] {
      DecodedSoFar(data, done, start, |data|);
      DecodeTail(result);
    }
  }

  lemma DecodeEnds(data: seq<byte>)
    ensures data[0..] == data && [] + Decode(data) == Decode(data)
    ensures Decode(data[|data|..]) == [] && (data == [] ==> Decode(data) == [])
  {
  }

  lemma DecodeTail(result: seq<byte>)
    ensures result + [] == result
  {
  }

  lemma DecodeNone(data: seq<byte>, i: nat)
    requires i < |data|
    ensures DecodeGroup(data[i], data[i + 1..i + 1]) == []
  {
  }
}
