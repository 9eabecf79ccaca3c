/** Bytes, fixed-width integers and null-terminated strings: the byte-array
    helpers of brtServer/util.cpp and ghost/util.cpp. */
module Bytes {

  newtype byte = b: int | 0 <= b < 256

  const UINT32_COUNT: int := 0x1_0000_0000

  type uint32 = n: int | 0 <= n < 0x1_0000_0000
  type uint16 = n: int | 0 <= n < 0x1_0000

  /** A size_t or int difference stored in a uint32_t. */
  function ToUInt32(n: int): uint32 {
    n % UINT32_COUNT
  }

  /** Numbers that fit stay as they are; 2^32 more or less makes no difference. */
  lemma Wraps(n: uint32)
    ensures ToUInt32(n) == ToUInt32(n + 0x1_0000_0000) == ToUInt32(n - 0x1_0000_0000) == n
  {
  }

  // ----- little-endian integers -----

  function U16Bytes(n: uint16): seq<byte> {
    [(n % 256) as byte, (n / 256) as byte]
  }

  function U32Bytes(n: uint32): seq<byte> {
    [(n % 256) as byte, (n / 256 % 256) as byte, (n / 65536 % 256) as byte, (n / 16777216) as byte]
  }

  /** UTIL_ByteArrayToUInt16 with reverse = false. */
  function U16At(b: seq<byte>, start: nat): uint16 {
    if |b| < start + 2 then 0 else b[start] as int + 256 * b[start + 1] as int
  }

  /** UTIL_ByteArrayToUInt32 with reverse = false. */
  function U32At(b: seq<byte>, start: nat): uint32 {
    if |b| < start + 4 then 0
    else b[start] as int + 256 * b[start + 1] as int + 65536 * b[start + 2] as int + 16777216 * b[start + 3] as int
  }

  /** The least significant byte stands first. */
  lemma LowByteFirst()
    ensures U16At([0xB2, 0xA1], 0) == 0xA1B2 && U32At([0xD4, 0xC3, 0xB2, 0xA1], 0) == 0xA1B2C3D4
  {
  }

  /** Appending a 16-bit integer and reading it back, wherever it stands. */
  lemma U16RoundTrip(before: seq<byte>, n: uint16, after: seq<byte>)
    ensures U16At(before + U16Bytes(n) + after, |before|) == n
  {
  }

  /** Appending a 32-bit integer and reading it back, wherever it stands. */
  lemma U32RoundTrip(before: seq<byte>, n: uint32, after: seq<byte>)
    ensures U32At(before + U32Bytes(n) + after, |before|) == n
  {
    var b := before + U32Bytes(n) + after;
    assert forall i | 0 <= i < 4 :: b[|before| + i] == U32Bytes(n)[i];
    assert n / 256 == n / 65536 * 256 + n / 256 % 256;
    assert n / 65536 == n / 16777216 * 256 + n / 65536 % 256;
  }

  // ----- null-terminated strings -----

  /** The bytes before the first zero, or all of them when there is none. */
  function UpToZero(b: seq<byte>): seq<byte> {
    if b == [] || b[0] == 0 then [] else [b[0]] + UpToZero(b[1..])
  }

  /** What UTIL_ExtractCString returns. */
  function CStringAt(b: seq<byte>, start: nat): seq<byte> {
    if start < |b| then UpToZero(b[start..]) else []
  }

  lemma {:induction false} UpToZeroBefore(s: seq<byte>, rest: seq<byte>)
    requires 0 !in s
    ensures UpToZero(s + [0] + rest) == s
  {
    if s == [] {
      assert ([0] + rest)[0] == 0;
      assert s + [0] + rest == [0] + rest;
    } else {
      assert (s + [0] + rest)[1..] == s[1..] + [0] + rest;
      UpToZeroBefore(s[1..], rest);
    }
  }

  /** A string is read back from behind any prefix exactly when it holds no zero. */
  lemma CStringRoundTrip(before: seq<byte>, s: seq<byte>, rest: seq<byte>)
    ensures CStringAt(before + s + [0] + rest, |before|) == s <==> 0 !in s
  {
    var b := before + s + [0] + rest;
    assert b[|before|..] == s + [0] + rest;
    if 0 !in s {
      UpToZeroBefore(s, rest);
    } else {
      UpToZeroHasNoZero(s + [0] + rest);
    }
  }

  lemma {:induction false} UpToZeroHasNoZero(b: seq<byte>)
    ensures 0 !in UpToZero(b)
    ensures UpToZero(b) <= b
    ensures |UpToZero(b)| < |b| ==> b[|UpToZero(b)|] == 0
  {
    if b != [] && b[0] != 0 {
      UpToZeroHasNoZero(b[1..]);
    }
  }

  /** UTIL_ExtractCString: scan from start for the first null value. */
  method ExtractCString(b: seq<byte>, start: nat) returns (s: seq<byte>)
    ensures s == CStringAt(b, start)
  {
    hide UpToZero;
    if start < |b| {
      var i := start;
      while i < |b|
        invariant start <= i <= |b| && 0 !in b[start..i]
      {
        if b[i] == 0 {
          ScanStops(b, start, i);
          return b[start..i];
        }
        i := i + 1;
      }
      ScanStops(b, start, |b|);
      return b[start..];
    }
    return [];
  }

  lemma ScanStops(b: seq<byte>, start: nat, i: nat)
    requires start <= i <= |b| && 0 !in b[start..i] && (i < |b| ==> b[i] == 0)
    ensures UpToZero(b[start..]) == b[start..i]
  {
    if i < |b| {
      UpToZeroBefore(b[start..i], b[i + 1..]);
      assert b[start..] == b[start..i] + [0] + b[i + 1..];
    } else {
      UpToZeroHasNoZero(b[start..]);
      assert b[start..] == b[start..i];
    }
  }
}
