/** The protocol as bytes: what requests and answers look like on the wire, and what
    the readers make of numbers, line ends and lengths of every kind. */
module RespWire {
  import opened Bytes
  import opened RedisReply
  import opened Resp
  import RedisReader
  import opened Sequences

  // ----- as written -----

  lemma OneDigit(n: nat)
    requires n < 10
    ensures Digits(n) == [(48 + n) as byte]
  {
  }

  /** Decimal, the most significant digit first. */
  lemma NumberWritten()
    ensures Digits(1024) == [49, 48, 50, 52]
  {
    assert Digits(10) == [49, 48];
    assert Digits(102) == [49, 48, 50];
  }

  lemma BulkWritten(arg: seq<byte>)
    requires |arg| < 10
    ensures PrintBulk(arg) == [36, (48 + |arg|) as byte, 13, 10] + arg + [13, 10]
  {
    OneDigit(|arg|);
    hide Digits;
  }

  lemma TwoBulks(a: seq<byte>, b: seq<byte>)
    ensures PrintBulks([a, b]) == PrintBulk(a) + PrintBulk(b)
  {
    hide PrintBulk;
    assert [a, b][1..] == [b] && [b][1..] == [];
    assert PrintBulks([b]) == PrintBulk(b) + [];
  }

  /** "GET k" as it is sent: *2, $3, GET, $1, k, each with carriage return and newline. */
  lemma RequestWritten()
    ensures PrintCommand([[71, 69, 84], [107]])
      == [42, 50, 13, 10, 36, 51, 13, 10, 71, 69, 84, 13, 10, 36, 49, 13, 10, 107, 13, 10]
  {
    hide Digits, PrintBulk, PrintBulks;
    OneDigit(2);
    BulkWritten([71, 69, 84]);
    BulkWritten([107]);
    TwoBulks([71, 69, 84], [107]);
  }

  /** "+OK", "-ERR x", ":-5", the bulk "v", the missing bulk and the missing list. */
  lemma AnswersWritten()
    ensures PrintAnswer(SayStatus([79, 75])) == [43, 79, 75, 13, 10]
    ensures PrintAnswer(SayError([69, 82, 82], [120])) == [45, 69, 82, 82, 32, 120, 13, 10]
    ensures PrintAnswer(SayInt(-5)) == [58, 45, 53, 13, 10] && PrintAnswer(SayInt(5)) == [58, 53, 13, 10]
    ensures PrintAnswer(SayBulk(Data([118]))) == [36, 49, 13, 10, 118, 13, 10]
    ensures PrintAnswer(SayBulk(Nil)) == [36, 45, 49, 13, 10] && PrintAnswer(SayNoList) == [42, 45, 49, 13, 10]
  {
    OneDigit(1);
    OneDigit(5);
    hide Digits;
  }

  lemma TwoItems(a: Item, b: Item)
    ensures PrintItems([a, b]) == PrintItem(a) + PrintItem(b)
  {
    hide PrintItem;
    assert [a, b][1..] == [b] && [b][1..] == [];
    assert PrintItems([b]) == PrintItem(b) + [];
  }

  /** A list of the bulk "v" and a missing one. */
  lemma ListWritten()
    ensures PrintAnswer(SayMultiBulk([Data([118]), Nil]))
      == [42, 50, 13, 10, 36, 49, 13, 10, 118, 13, 10, 36, 45, 49, 13, 10]
  {
    hide Digits, PrintBulk, PrintItems;
    OneDigit(2);
    BulkWritten([118]);
    TwoItems(Data([118]), Nil);
  }

  /** A missing value is heard as **nonexistent-key**. */
  lemma MissingHeard()
    ensures Heard(SayBulk(Nil)) == RedisReader.Success(
      Bulk([42, 42, 110, 111, 110, 101, 120, 105, 115, 116, 101, 110, 116, 45, 107, 101, 121, 42, 42]))
  {
  }

  // ----- numbers -----

  /** A decimal number, with or without a sign, is cast to its value exactly when that
      fits in 64 bits. */
  lemma CastExact(n: nat)
    ensures ParseLong(Digits(n)) == if n <= 0x7FFF_FFFF_FFFF_FFFF then Value(n) else NotANumber
    ensures ParseLong([43] + Digits(n)) == if n <= 0x7FFF_FFFF_FFFF_FFFF then Value(n) else NotANumber
    ensures ParseLong([45] + Digits(n)) == if n <= 0x8000_0000_0000_0000 then Value(-(n as int)) else NotANumber
  {
    DigitsRoundTrip(n);
    hide Digits, DigitsValue;
    assert ([43] + Digits(n))[1..] == Digits(n) && ([45] + Digits(n))[1..] == Digits(n);
  }

  /** Nothing else is: no digits at all, or anything but a digit behind the first byte,
      or something else than a sign there. */
  lemma JunkRefused(s: seq<byte>)
    requires s == [] || s == [43] || s == [45]
      || (exists i :: 0 < i < |s| && !(48 <= s[i] <= 57)) || (!(48 <= s[0] <= 57) && s[0] != 43 && s[0] != 45)
    ensures ParseLong(s) == NotANumber
  {
    if i :| 0 < i < |s| && !(48 <= s[i] <= 57) {
      assert s[1..][i - 1] == s[i];
    }
  }

  /** Kept as an int, a number is the one of 32 bits that agrees with it modulo 2^32. */
  lemma IntKept(n: int)
    ensures -0x8000_0000 <= ToInt(n) <= 0x7FFF_FFFF && (ToInt(n) - n) % 0x1_0000_0000 == 0
  {
    var q := (n + 0x8000_0000) / 0x1_0000_0000;
    assert ToInt(n) - n == -q * 0x1_0000_0000;
  }

  // ----- lines -----

  predicate IsBreak(b: byte) {
    b == 13 || b == 10
  }

  /** Breaks are cut off the end, all of them and nothing else. */
  lemma {:induction false} RtrimExact(s: seq<byte>)
    ensures Rtrim(s) <= s && forall i | |Rtrim(s)| <= i < |s| :: IsBreak(s[i])
    ensures Rtrim(s) != [] ==> !IsBreak(s[|Rtrim(s)| - 1])
    decreases |s|
  {
    if s != [] && IsBreak(s[|s| - 1]) {
      RtrimExact(s[..|s| - 1]);
    }
  }

  /** A line ends at the first newline, with or without carriage returns in front of it. */
  lemma LineRead(line: seq<byte>, rest: seq<byte>)
    requires LF !in line
    ensures ReadLine(line + [10] + rest) == Got(Rtrim(line), rest)
  {
    hide Rtrim, LineLength;
    var s := line + [10] + rest;
    assert s[|line|] == LF;
    LineLengthOf(line, rest);
    assert s[..|line| + 1] == line + [LF] && s[|line| + 1..] == rest;
    NewlineTrimmed(line);
  }

  lemma NewlineTrimmed(line: seq<byte>)
    ensures Rtrim(line + [LF]) == Rtrim(line)
  {
    assert (line + [LF])[..|line|] == line;
  }

  // ----- lengths -----

  /** A length line is read as the number it holds, whatever its sign. */
  lemma LengthRead(prefix: byte, n: int, rest: seq<byte>)
    requires prefix != LF && -MAX_LONG - 1 <= n <= MAX_LONG
    ensures ReadLength([prefix] + PrintInt(n) + CRLF + rest, prefix) == Got(n, rest)
  {
    hide PrintInt, ParseLong, ReadLine;
    ParsePrintedInt(n);
    PrintIntLine(n);
    var line := [prefix] + PrintInt(n);
    assert line[1..] == PrintInt(n);
    ReadLineOf(line, rest);
  }

  /** A bulk of negative length: -1 is the missing value, -2 a protocol error, and all
      others are refused as lengths. */
  lemma NegativeBulk(n: int, rest: seq<byte>)
    requires -MAX_LONG - 1 <= n < 0
    ensures ReadBulk([36] + PrintInt(n) + CRLF + rest)
      == if n == -1 then Got(MISSING_VALUE, rest)
         else if n == -2 then Failed(ProtocolError, rest)
         else Failed(BadLength, rest)
  {
    hide ReadLength, PrintInt, MISSING_VALUE;
    LengthRead(36, n, rest);
  }

  /** A list of negative length: -1 is the missing list. */
  lemma NegativeList(n: int, rest: seq<byte>)
    requires -MAX_LONG - 1 <= n < 0
    ensures ReadMultiBulk([42] + PrintInt(n) + CRLF + rest)
      == if n == -1 then Failed(NoSuchKey, rest) else Failed(BadLength, rest)
  {
    hide ReadLength, PrintInt;
    LengthRead(42, n, rest);
  }

  /** A bulk is complete with the two bytes behind its data; before that the reader
      waits until the connection is closed. */
  lemma BulkCutOff(n: nat, tail: seq<byte>)
    requires n + 2 <= MAX_LONG
    ensures ReadBulk(PrintHeader(36, n) + tail)
      == if |tail| < n + 2 then Failed(ConnectionClosed, []) else Got(tail[..n], tail[n + 2..])
  {
    hide ReadLength, PrintHeader;
    ReadHeader(36, n, tail);
  }

  /** A line of another kind than asked for is a protocol error, and its line is gone. */
  lemma OtherKind(prefix: byte, line: seq<byte>, rest: seq<byte>)
    requires line != [] && LF !in line && line[|line| - 1] != CR && line[0] != prefix
    ensures ReadLength(line + CRLF + rest, prefix) == Failed(ProtocolError, rest)
  {
    hide ReadLine;
    ReadLineOf(line, rest);
  }

  /** An answer of no known kind is not touched. */
  lemma UnknownKind(s: seq<byte>)
    requires s != [] && s[0] != 43 && s[0] != 45 && s[0] != 58 && s[0] != 36 && s[0] != 42
    ensures ReadReply(s) == Failed(UnknownReply, s)
  {
  }
}
