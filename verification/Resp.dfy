/** The Redis request protocol of brtServer/redisclient.h: the printer makecmd and
    the multi-bulk parser, as functions on byte strings. */
module Resp {
  import opened Bytes
  import opened Sequences

  const CR: byte := 13
  const LF: byte := 10
  const CRLF: seq<byte> := [13, 10]
  const PREFIX_SINGLE_BULK: byte := 36
  const PREFIX_MULTI_BULK: byte := 42
  const MINUS: byte := 45
  const PLUS: byte := 43

  const MAX_LONG: int := 0x7FFF_FFFF_FFFF_FFFF

  /** The string that stands for a missing key: **nonexistent-key**. */
  const MISSING_VALUE: seq<byte> :=
    [42, 42, 110, 111, 110, 101, 120, 105, 115, 116, 101, 110, 116, 45, 107, 101, 121, 42, 42]

  datatype Error = ConnectionClosed | ProtocolError | BadCast | BadLength | NoSuchKey | OutOfRange | UnknownReply

  /** What a reader finds at the front of a stream, or the exception it throws; rest
      is what it leaves unread. */
  datatype Read<+T> = Got(value: T, rest: seq<byte>) | Failed(error: Error, rest: seq<byte>)

  // ----- decimal numbers -----

  function Digits(n: nat): (d: seq<byte>)
    ensures |d| > 0 && forall i | 0 <= i < |d| :: 48 <= d[i] <= 57
  {
    if n < 10 then [(48 + n) as byte] else Digits(n / 10) + [(48 + n % 10) as byte]
  }

  predicate AllDigits(s: seq<byte>) {
    forall i | 0 <= i < |s| :: 48 <= s[i] <= 57
  }

  function DigitsValue(s: seq<byte>): nat
    requires AllDigits(s)
  {
    if s == [] then 0 else 10 * DigitsValue(s[..|s| - 1]) + (s[|s| - 1] as int - 48)
  }

  datatype Cast = Value(n: int) | NotANumber

  /** lexical_cast of a string to a signed 64-bit integer: an optional sign, then
      digits, and the value must fit. */
  function ParseLong(s: seq<byte>): Cast {
    var signed := s != [] && (s[0] == MINUS || s[0] == PLUS);
    var digits := if signed then s[1..] else s;
    if digits == [] || !AllDigits(digits) then NotANumber
    else
      var n := if signed && s[0] == MINUS then -(DigitsValue(digits) as int) else DigitsValue(digits) as int;
      if -MAX_LONG - 1 <= n <= MAX_LONG then Value(n) else NotANumber
  }

  lemma {:induction false} DigitsRoundTrip(n: nat)
    ensures DigitsValue(Digits(n)) == n
  {
    var d := Digits(n);
    if n >= 10 {
      DigitsRoundTrip(n / 10);
      assert d[..|d| - 1] == Digits(n / 10);
    } else {
      assert d[..0] == [];
    }
  }

  lemma ParseDigits(n: nat)
    requires n <= MAX_LONG
    ensures ParseLong(Digits(n)) == Value(n)
  {
    DigitsRoundTrip(n);
  }

  // ----- lines -----

  /** The length of the line at the front, up to and including its newline. */
  function LineLength(s: seq<byte>): (n: nat)
    ensures n <= |s|
    ensures LF in s ==> n > 0 && s[n - 1] == LF && LF !in s[..n - 1]
  {
    if s == [] then 0 else if s[0] == LF then 1 else 1 + LineLength(s[1..])
  }

  /** Trailing newline and carriage return characters removed. */
  function Rtrim(s: seq<byte>): seq<byte> {
    if s != [] && (s[|s| - 1] == CR || s[|s| - 1] == LF) then Rtrim(s[..|s| - 1]) else s
  }

  function ReadLine(s: seq<byte>): Read<seq<byte>> {
    if LF !in s then Failed(ConnectionClosed, [])
    else Got(Rtrim(s[..LineLength(s)]), s[LineLength(s)..])
  }

  // ----- replies -----

  function ReadLength(s: seq<byte>, prefix: byte): Read<int> {
    match ReadLine(s)
    case Failed(e, end) => Failed(e, end)
    case Got(line, rest) =>
      if line == [] || line[0] != prefix then Failed(ProtocolError, rest)
      else match ParseLong(line[1..])
        case Value(n) => Got(n, rest)
        case NotANumber => Failed(BadCast, rest)
  }

  /** One bulk reply. The two bytes after the data are dropped unread. */
  function ReadBulk(s: seq<byte>): Read<seq<byte>> {
    match ReadLength(s, PREFIX_SINGLE_BULK)
    case Failed(e, end) => Failed(e, end)
    case Got(length, rest) =>
      if length == -1 then Got(MISSING_VALUE, rest)
      else if length + 2 < 0 || length + 2 > MAX_LONG then Failed(BadLength, rest)
      else if length + 2 == 0 then Failed(ProtocolError, rest)
      else if |rest| < length + 2 then Failed(ConnectionClosed, [])
      else Got(rest[..length], rest[length + 2..])
  }

  function ReadBulks(s: seq<byte>, count: nat): Read<seq<seq<byte>>>
    decreases count
  {
    if count == 0 then Got([], s)
    else match ReadBulk(s)
      case Failed(e, end) => Failed(e, end)
      case Got(first, rest) =>
        match ReadBulks(rest, count - 1)
        case Failed(e, end) => Failed(e, end)
        case Got(others, end) => Got([first] + others, end)
  }

  function ReadMultiBulk(s: seq<byte>): Read<seq<seq<byte>>> {
    match ReadLength(s, PREFIX_MULTI_BULK)
    case Failed(e, end) => Failed(e, end)
    case Got(length, rest) =>
      if length == -1 then Failed(NoSuchKey, rest)
      else if length < 0 then Failed(BadLength, rest)
      else ReadBulks(rest, length)
  }

  // ----- requests -----

  function PrintHeader(prefix: byte, n: nat): seq<byte> {
    [prefix] + Digits(n) + CRLF
  }

  function PrintBulk(arg: seq<byte>): seq<byte> {
    PrintHeader(PREFIX_SINGLE_BULK, |arg|) + arg + CRLF
  }

  function PrintBulks(args: seq<seq<byte>>): seq<byte> {
    if args == [] then [] else PrintBulk(args[0]) + PrintBulks(args[1..])
  }

  /** What makecmd converts to. */
  function PrintCommand(args: seq<seq<byte>>): seq<byte> {
    PrintHeader(PREFIX_MULTI_BULK, |args|) + PrintBulks(args)
  }

  /** A string whose size, and a list whose length, a long can hold. */
  predicate Printable(args: seq<seq<byte>>) {
    |args| <= MAX_LONG && forall i | 0 <= i < |args| :: |args[i]| + 2 <= MAX_LONG
  }

  // ----- round trip -----

  lemma {:induction false} LineLengthOf(line: seq<byte>, rest: seq<byte>)
    requires LF !in line
    ensures LineLength(line + [LF] + rest) == |line| + 1
  {
    var s := line + [LF] + rest;
    if line == [] {
      assert s[0] == LF;
    } else {
      assert s[1..] == line[1..] + [LF] + rest;
      LineLengthOf(line[1..], rest);
    }
  }

  lemma RtrimLine(line: seq<byte>)
    requires line != [] && line[|line| - 1] != CR && line[|line| - 1] != LF
    ensures Rtrim(line + CRLF) == line
  {
    var s := line + CRLF;
    assert s[..|s| - 1] == line + [CR];
    assert (line + [CR])[..|line|] == line;
    assert Rtrim(line + [CR]) == Rtrim(line);
  }

  lemma ReadLineOf(line: seq<byte>, rest: seq<byte>)
    requires line != [] && LF !in line && line[|line| - 1] != CR
    ensures ReadLine(line + CRLF + rest) == Got(line, rest)
  {
    var s := line + CRLF + rest;
    assert s == (line + [CR]) + [LF] + rest;
    LineLengthOf(line + [CR], rest);
    RtrimLine(line);
    assert s[..|line| + 2] == line + CRLF && s[|line| + 2..] == rest;
    assert s[|line| + 1] == LF;
  }

  lemma ReadHeader(prefix: byte, n: nat, rest: seq<byte>)
    requires prefix != LF && n <= MAX_LONG
    ensures ReadLength(PrintHeader(prefix, n) + rest, prefix) == Got(n, rest)
  {
    var line := [prefix] + Digits(n);
    ParseDigits(n);
    hide Digits, ParseLong, ReadLine;
    assert line[1..] == Digits(n);
    ReadLineOf(line, rest);
  }

  lemma ReadPrintedBulk(arg: seq<byte>, rest: seq<byte>)
    requires |arg| + 2 <= MAX_LONG
    ensures ReadBulk(PrintBulk(arg) + rest) == Got(arg, rest)
  {
    hide PrintHeader, ReadLength;
    var header := PrintHeader(PREFIX_SINGLE_BULK, |arg|);
    var tail := arg + CRLF + rest;
    ConcatAssociative(header, arg, CRLF);
    ConcatAssociative(header, arg + CRLF, rest);
    ReadHeader(PREFIX_SINGLE_BULK, |arg|, tail);
    assert tail[..|arg|] == arg && tail[|arg| + 2..] == rest;
  }

  lemma ReadBulksFront(s: seq<byte>, count: nat, first: seq<byte>, rest: seq<byte>, others: seq<seq<byte>>,
                       end: seq<byte>)
    requires count > 0 && ReadBulk(s) == Got(first, rest) && ReadBulks(rest, count - 1) == Got(others, end)
    ensures ReadBulks(s, count) == Got([first] + others, end)
  {
  }

  lemma {:induction false} ReadPrintedBulks(args: seq<seq<byte>>, rest: seq<byte>)
    requires Printable(args)
    ensures ReadBulks(PrintBulks(args) + rest, |args|) == Got(args, rest)
    decreases |args|
  {
    hide PrintBulks, ReadBulks, Printable;
    if args == [] {
      ReadPrintedNone(rest);
    } else {
      PrintableTail(args);
      ReadPrintedBulks(args[1..], rest);
      ReadPrintedFront(args, rest);
      HeadTail(args);
    }
  }

  lemma ReadPrintedNone(rest: seq<byte>)
    ensures ReadBulks(PrintBulks([]) + rest, 0) == Got([], rest)
  {
    assert PrintBulks([]) + rest == rest;
  }

  lemma PrintableTail(args: seq<seq<byte>>)
    requires Printable(args) && args != []
    ensures Printable(args[1..]) && |args[0]| + 2 <= MAX_LONG
  {
  }

  lemma PrintBulksFront(args: seq<seq<byte>>, rest: seq<byte>)
    requires args != []
    ensures PrintBulks(args) + rest == PrintBulk(args[0]) + (PrintBulks(args[1..]) + rest)
  {
  }

  lemma ReadPrintedFront(args: seq<seq<byte>>, rest: seq<byte>)
    requires args != [] && |args[0]| + 2 <= MAX_LONG
    requires ReadBulks(PrintBulks(args[1..]) + rest, |args| - 1) == Got(args[1..], rest)
    ensures ReadBulks(PrintBulks(args) + rest, |args|) == Got([args[0]] + args[1..], rest)
  {
    hide PrintBulk, ReadBulk, PrintBulks, ReadBulks;
    PrintBulksFront(args, rest);
    var tail := PrintBulks(args[1..]) + rest;
    ReadPrintedBulk(args[0], tail);
    ReadBulksFront(PrintBulk(args[0]) + tail, |args|, args[0], tail, args[1..], rest);
  }

  /** The parser returns exactly the printed arguments, whatever bytes they hold,
      and consumes exactly their bytes. */
  lemma CommandRoundTrip(args: seq<seq<byte>>, rest: seq<byte>)
    requires Printable(args)
    ensures ReadMultiBulk(PrintCommand(args) + rest) == Got(args, rest)
  {
    hide PrintHeader, ReadLength, PrintBulks, ReadBulks;
    ConcatAssociative(PrintHeader(PREFIX_MULTI_BULK, |args|), PrintBulks(args), rest);
    ReadHeader(PREFIX_MULTI_BULK, |args|, PrintBulks(args) + rest);
    ReadPrintedBulks(args, rest);
  }

  function PrintCommands(commands: seq<seq<seq<byte>>>): seq<byte> {
    if commands == [] then [] else PrintCommand(commands[0]) + PrintCommands(commands[1..])
  }

  /** The parser run count times on one stream. */
  function ReadCommands(s: seq<byte>, count: nat): Read<seq<seq<seq<byte>>>>
    decreases count
  {
    if count == 0 then Got([], s)
    else match ReadMultiBulk(s)
      case Failed(e, end) => Failed(e, end)
      case Got(first, rest) =>
        match ReadCommands(rest, count - 1)
        case Failed(e, end) => Failed(e, end)
        case Got(others, end) => Got([first] + others, end)
  }

  /** Any concatenation of requests parses back into the same requests. */
  lemma {:induction false} PipelineRoundTrip(commands: seq<seq<seq<byte>>>, rest: seq<byte>)
    requires forall i | 0 <= i < |commands| :: Printable(commands[i])
    ensures ReadCommands(PrintCommands(commands) + rest, |commands|) == Got(commands, rest)
    decreases |commands|
  {
    hide PrintCommands, ReadCommands, Printable;
    if commands == [] {
      PipelineNone(rest);
    } else {
      PipelineRoundTrip(commands[1..], rest);
      PipelineFront(commands, rest);
      HeadTail(commands);
    }
  }

  lemma PipelineNone(rest: seq<byte>)
    ensures ReadCommands(PrintCommands([]) + rest, 0) == Got([], rest)
  {
    assert PrintCommands([]) + rest == rest;
  }

  lemma PipelineFront(commands: seq<seq<seq<byte>>>, rest: seq<byte>)
    requires commands != [] && Printable(commands[0])
    requires ReadCommands(PrintCommands(commands[1..]) + rest, |commands| - 1) == Got(commands[1..], rest)
    ensures ReadCommands(PrintCommands(commands) + rest, |commands|) == Got([commands[0]] + commands[1..], rest)
  {
    var printed := PrintCommands(commands[1..]);
    assert PrintCommands(commands) == PrintCommand(commands[0]) + printed;
    hide PrintCommand, ReadMultiBulk, PrintCommands, Printable;
    ConcatAssociative(PrintCommand(commands[0]), printed, rest);
    CommandRoundTrip(commands[0], printed + rest);
  }
}
