/** Replies of any kind: how a server prints them and how recv_generic_reply_ of
    brtServer/redisclient.h reads them. */
module RedisReply {
  import opened Bytes
  import opened Resp
  import RedisReader
  import opened Sequences

  const PREFIX_STATUS: byte := 43
  const PREFIX_ERROR: byte := 45
  const PREFIX_INT: byte := 58
  // "-ERR "
  const ERROR_PREFIX: seq<byte> := [45, 69, 82, 82, 32]

  datatype Reply = Status(text: seq<byte>) | ErrorReply(text: seq<byte>) | IntReply(n: int)
    | Bulk(value: seq<byte>) | MultiBulk(values: seq<seq<byte>>)

  // ----- the reader -----

  const INT_COUNT: int := 0x1_0000_0000
  const MAX_INT: int := 0x7FFF_FFFF

  /** A long stored as an int. */
  function ToInt(n: int): int {
    (n + MAX_INT + 1) % INT_COUNT - MAX_INT - 1
  }

  function Skip(s: seq<byte>, n: nat): Read<seq<byte>> {
    match ReadLine(s)
    case Failed(e, end) => Failed(e, end)
    case Got(line, rest) => if |line| < n then Failed(OutOfRange, rest) else Got(line[n..], rest)
  }

  /** The kind is told by the first byte, which is peeked at. An integer is read as
      a long and kept as an int, the variant's only integer type. */
  function ReadReply(s: seq<byte>): Read<Reply> {
    if s == [] then Failed(ConnectionClosed, [])
    else if s[0] == PREFIX_STATUS then
      match Skip(s, 1)
      case Got(text, rest) => Got(Status(text), rest)
      case Failed(e, rest) => Failed(e, rest)
    else if s[0] == PREFIX_ERROR then
      match Skip(s, 5)
      case Got(text, rest) => Got(ErrorReply(text), rest)
      case Failed(e, rest) => Failed(e, rest)
    else if s[0] == PREFIX_INT then
      match ReadLength(s, PREFIX_INT)
      case Got(n, rest) => Got(IntReply(ToInt(n)), rest)
      case Failed(e, rest) => Failed(e, rest)
    else if s[0] == PREFIX_SINGLE_BULK then
      match ReadBulk(s)
      case Got(value, rest) => Got(Bulk(value), rest)
      case Failed(e, rest) => Failed(e, rest)
    else if s[0] == PREFIX_MULTI_BULK then
      match ReadMultiBulk(s)
      case Got(values, rest) => Got(MultiBulk(values), rest)
      case Failed(e, rest) => Failed(e, rest)
    else Failed(UnknownReply, s)
  }

  /** read_line followed by substr, which throws on a shorter line. */
  method RecvLineFrom(socket: RedisReader.Socket, n: nat) returns (text: RedisReader.Result<seq<byte>>)
    modifies socket
    ensures RedisReader.Follows(Skip(old(socket.stream), n), text, socket.stream)
  {
    hide Resp.ReadLine;
    var line := RedisReader.ReadLine(socket);
    if line.Failure? {
      return RedisReader.Failure(line.error);
    }
    if |line.value| < n {
      return RedisReader.Failure(OutOfRange);
    }
    return RedisReader.Success(line.value[n..]);
  }

  method RecvGenericReply(socket: RedisReader.Socket) returns (reply: RedisReader.Result<Reply>)
    modifies socket
    ensures RedisReader.Follows(ReadReply(old(socket.stream)), reply, socket.stream)
  {
    hide Skip, ReadLength, ReadBulk, ReadMultiBulk;
    var replyPrefix := socket.Peek(1);
    if replyPrefix == [] {
      return RedisReader.Failure(ConnectionClosed);
    }
    var kind := replyPrefix[0];
    assert kind == socket.stream[0];
    if kind == PREFIX_STATUS {
      var text := RecvLineFrom(socket, 1);
      return if text.Success? then RedisReader.Success(Status(text.value)) else RedisReader.Failure(text.error);
    } else if kind == PREFIX_ERROR {
      var text := RecvLineFrom(socket, |ERROR_PREFIX|);
      return if text.Success? then RedisReader.Success(ErrorReply(text.value)) else RedisReader.Failure(text.error);
    } else if kind == PREFIX_INT {
      // recv_int_reply_ reads and casts just as the length of a bulk reply is read
      var n := RedisReader.RecvLength(socket, PREFIX_INT);
      return if n.Success? then RedisReader.Success(IntReply(ToInt(n.value))) else RedisReader.Failure(n.error);
    } else if kind == PREFIX_SINGLE_BULK {
      var value := RedisReader.RecvBulk(socket);
      return if value.Success? then RedisReader.Success(Bulk(value.value)) else RedisReader.Failure(value.error);
    } else if kind == PREFIX_MULTI_BULK {
      var values := RedisReader.RecvMultiBulk(socket);
      return if values.Success? then RedisReader.Success(MultiBulk(values.value))
        else RedisReader.Failure(values.error);
    } else {
      return RedisReader.Failure(UnknownReply);
    }
  }

  // ----- the server's printer -----

  /** A bulk that may be missing. */
  datatype Item = Nil | Data(bytes: seq<byte>)

  /** What a server says. An error begins with a code, mostly ERR; SayNoList is the
      missing list, as in answer to a blocking pop that timed out. */
  datatype Answer = SayStatus(text: seq<byte>) | SayError(code: seq<byte>, text: seq<byte>) | SayInt(n: int)
    | SayBulk(item: Item) | SayMultiBulk(items: seq<Item>) | SayNoList

  function Seen(item: Item): seq<byte> {
    match item
    case Nil => MISSING_VALUE
    case Data(bytes) => bytes
  }

  function AllSeen(items: seq<Item>): (r: seq<seq<byte>>)
    ensures |r| == |items| && forall i | 0 <= i < |r| :: r[i] == Seen(items[i])
  {
    seq(|items|, i requires 0 <= i < |items| => Seen(items[i]))
  }

  const SPACE: byte := 32

  /** An error line without its first byte. */
  function ErrorLine(code: seq<byte>, text: seq<byte>): seq<byte> {
    code + [SPACE] + text
  }

  /** What the client makes of an answer: a reply, or an exception. It takes every
      error code to have three bytes. */
  function Heard(a: Answer): RedisReader.Result<Reply> {
    match a
    case SayStatus(text) => RedisReader.Success(Status(text))
    case SayError(code, text) =>
      var line := ErrorLine(code, text);
      if |line| < 4 then RedisReader.Failure(OutOfRange) else RedisReader.Success(ErrorReply(line[4..]))
    case SayInt(n) => RedisReader.Success(IntReply(ToInt(n)))
    case SayBulk(item) => RedisReader.Success(Bulk(Seen(item)))
    case SayMultiBulk(items) => RedisReader.Success(MultiBulk(AllSeen(items)))
    case SayNoList => RedisReader.Failure(NoSuchKey)
  }

  /** What the client makes of an answer where it insists on a list. */
  function HeardList(a: Answer): RedisReader.Result<seq<seq<byte>>>
    requires a.SayMultiBulk? || a.SayError? || a.SayNoList?
  {
    match a
    case SayMultiBulk(items) => RedisReader.Success(AllSeen(items))
    case SayError(_, _) => RedisReader.Failure(ProtocolError)
    case SayNoList => RedisReader.Failure(NoSuchKey)
  }

  /** A result with the bytes behind it. */
  function Before<T>(r: RedisReader.Result<T>, rest: seq<byte>): Read<T> {
    match r
    case Success(value) => Got(value, rest)
    case Failure(error) => Failed(error, rest)
  }

  function PrintInt(n: int): seq<byte> {
    if n < 0 then [MINUS] + Digits(-n) else Digits(n)
  }

  // "$-1" and a line break
  const NIL_BULK: seq<byte> := [36, 45, 49, 13, 10]
  // "*-1" and a line break
  const NIL_MULTI_BULK: seq<byte> := [42, 45, 49, 13, 10]

  function PrintItem(item: Item): seq<byte> {
    match item
    case Nil => NIL_BULK
    case Data(bytes) => PrintBulk(bytes)
  }

  function PrintItems(items: seq<Item>): seq<byte> {
    if items == [] then [] else PrintItem(items[0]) + PrintItems(items[1..])
  }

  function PrintAnswer(a: Answer): seq<byte> {
    match a
    case SayStatus(text) => [PREFIX_STATUS] + text + CRLF
    case SayError(code, text) => [PREFIX_ERROR] + ErrorLine(code, text) + CRLF
    case SayInt(n) => [PREFIX_INT] + PrintInt(n) + CRLF
    case SayBulk(item) => PrintItem(item)
    case SayMultiBulk(items) => PrintHeader(PREFIX_MULTI_BULK, |items|) + PrintItems(items)
    case SayNoList => NIL_MULTI_BULK
  }

  predicate OneLine(text: seq<byte>) {
    LF !in text && (text != [] ==> text[|text| - 1] != CR)
  }

  predicate Fits(item: Item) {
    item.Data? ==> |item.bytes| + 2 <= MAX_LONG
  }

  /** Texts are single lines; numbers and sizes fit a long. */
  predicate Sayable(a: Answer) {
    match a
    case SayStatus(text) => OneLine(text)
    case SayError(code, text) => LF !in code && OneLine(text)
    case SayInt(n) => -MAX_LONG - 1 <= n <= MAX_LONG
    case SayBulk(item) => Fits(item)
    case SayMultiBulk(items) => |items| <= MAX_LONG && forall i | 0 <= i < |items| :: Fits(items[i])
    case SayNoList => true
  }

  // ----- round trip -----

  lemma ParseMinus(digits: seq<byte>)
    requires digits != [] && AllDigits(digits) && DigitsValue(digits) <= MAX_LONG + 1
    ensures ParseLong([MINUS] + digits) == Value(-(DigitsValue(digits) as int))
  {
    hide AllDigits, DigitsValue;
    assert ([MINUS] + digits)[1..] == digits;
  }

  lemma ParsePrintedInt(n: int)
    requires -MAX_LONG - 1 <= n <= MAX_LONG
    ensures ParseLong(PrintInt(n)) == Value(n)
  {
    hide Digits, DigitsValue, ParseLong;
    if n < 0 {
      DigitsRoundTrip(-n);
      ParseMinus(Digits(-n));
    } else {
      ParseDigits(n);
    }
  }

  lemma PrintIntLine(n: int)
    ensures LF !in PrintInt(n) && PrintInt(n) != [] && PrintInt(n)[|PrintInt(n)| - 1] != CR
  {
  }

  lemma SkipPrinted(prefix: seq<byte>, text: seq<byte>, rest: seq<byte>)
    requires prefix != [] && LF !in prefix && prefix[|prefix| - 1] != CR && OneLine(text)
    ensures ReadLine(prefix + text + CRLF + rest) == Got(prefix + text, rest)
    ensures Skip(prefix + text + CRLF + rest, |prefix|) == Got(text, rest)
  {
    hide ReadLine;
    var line := prefix + text;
    assert line[|prefix|..] == text;
    ReadLineOf(line, rest);
  }

  lemma StatusRoundTrip(text: seq<byte>, rest: seq<byte>)
    requires OneLine(text)
    ensures ReadReply(PrintAnswer(SayStatus(text)) + rest) == Got(Status(text), rest)
  {
    hide Skip, ReadLine, OneLine;
    SkipPrinted([PREFIX_STATUS], text, rest);
  }

  /** An error reply is read as such, and refused where a list was expected. */
  lemma ErrorRoundTrip(code: seq<byte>, text: seq<byte>, rest: seq<byte>)
    requires LF !in code && OneLine(text)
    ensures ReadReply(PrintAnswer(SayError(code, text)) + rest) == Before(Heard(SayError(code, text)), rest)
    ensures ReadMultiBulk(PrintAnswer(SayError(code, text)) + rest) == Failed(ProtocolError, rest)
  {
    hide ReadLine, OneLine;
    ErrorLineFits(code, text);
    SkipPrinted([PREFIX_ERROR], ErrorLine(code, text), rest);
    var line := [PREFIX_ERROR] + ErrorLine(code, text);
    assert |line| >= 5 ==> line[5..] == ErrorLine(code, text)[4..];
  }

  lemma ErrorLineFits(code: seq<byte>, text: seq<byte>)
    requires LF !in code && OneLine(text)
    ensures OneLine(ErrorLine(code, text))
  {
  }

  /** The answers on which the client throws. */
  lemma ThrowsExact(a: Answer)
    ensures Heard(a).Failure? <==> a.SayNoList? || (a.SayError? && |a.code| + |a.text| < 3)
  {
  }

  /** The text of an error is recovered exactly when its code has three bytes. */
  lemma ErrorTextExact(code: seq<byte>, text: seq<byte>)
    ensures Heard(SayError(code, text)) == RedisReader.Success(ErrorReply(text)) <==> |code| == 3
  {
    var line := ErrorLine(code, text);
    if |line| >= 4 && |code| != 3 {
      assert |line[4..]| != |text|;
    }
  }

  /** "-LOADING Redis", of a server that is starting, is taken for the text "ING Redis". */
  lemma LoadingGarbled()
    ensures Heard(SayError([76, 79, 65, 68, 73, 78, 71], [82, 101, 100, 105, 115]))
      == RedisReader.Success(ErrorReply([73, 78, 71, 32, 82, 101, 100, 105, 115]))
  {
    var line := ErrorLine([76, 79, 65, 68, 73, 78, 71], [82, 101, 100, 105, 115]);
    assert line[4..] == [73, 78, 71, 32, 82, 101, 100, 105, 115];
  }

  /** A number the server says as a long is kept as an int, and so is read back as
      it was exactly when it fits one. */
  lemma IntRoundTrip(n: int, rest: seq<byte>)
    requires -MAX_LONG - 1 <= n <= MAX_LONG
    ensures ReadReply(PrintAnswer(SayInt(n)) + rest) == Got(IntReply(ToInt(n)), rest)
    ensures ToInt(n) == n <==> -MAX_INT - 1 <= n <= MAX_INT
  {
    hide PrintInt, ParseLong, ReadLine;
    ParsePrintedInt(n);
    PrintIntLine(n);
    var line := [PREFIX_INT] + PrintInt(n);
    assert line[1..] == PrintInt(n);
    ReadLineOf(line, rest);
  }

  lemma FirstByte(prefix: byte, n: nat, tail: seq<byte>)
    ensures var s := PrintHeader(prefix, n) + tail;
      s != [] && s[0] == prefix
  {
  }

  /** The length line of something missing. */
  lemma NilLength(prefix: byte, rest: seq<byte>)
    requires prefix != LF
    ensures ReadLength([prefix, MINUS, 49] + CRLF + rest, prefix) == Got(-1, rest)
  {
    hide ReadLine, ParseLong;
    var line: seq<byte> := [prefix, MINUS, 49];
    ReadLineOf(line, rest);
    MinusOne();
    assert line[1..] == [MINUS, 49];
  }

  lemma MinusOne()
    ensures ParseLong([MINUS, 49]) == Value(-1)
  {
    ParseMinus([49]);
    assert [49][..0] == [];
    assert [MINUS] + [49] == [MINUS, 49];
  }

  lemma ItemRoundTrip(item: Item, rest: seq<byte>)
    requires Fits(item)
    ensures ReadBulk(PrintItem(item) + rest) == Got(Seen(item), rest)
    ensures PrintItem(item) + rest != [] && (PrintItem(item) + rest)[0] == PREFIX_SINGLE_BULK
  {
    match item
    case Nil =>
      hide ReadLength, MISSING_VALUE;
      NilLength(PREFIX_SINGLE_BULK, rest);
      assert NIL_BULK + rest == [PREFIX_SINGLE_BULK, MINUS, 49] + CRLF + rest;
    case Data(bytes) =>
      hide ReadBulk, PrintHeader;
      ReadPrintedBulk(bytes, rest);
      FirstByte(PREFIX_SINGLE_BULK, |bytes|, bytes + CRLF + rest);
      ConcatAssociative(PrintHeader(PREFIX_SINGLE_BULK, |bytes|), bytes, CRLF);
      ConcatAssociative(PrintHeader(PREFIX_SINGLE_BULK, |bytes|), bytes + CRLF, rest);
  }

  lemma {:induction false} ItemsRoundTrip(items: seq<Item>, rest: seq<byte>)
    requires forall i | 0 <= i < |items| :: Fits(items[i])
    ensures ReadBulks(PrintItems(items) + rest, |items|) == Got(AllSeen(items), rest)
    decreases |items|
  {
    hide ReadBulks, PrintItem, Seen, Fits, PrintItems;
    if items == [] {
      NoItems(rest);
    } else {
      var more := PrintItems(items[1..]) + rest;
      ItemRoundTrip(items[0], more);
      ItemsRoundTrip(items[1..], rest);
      ReadBulksFront(PrintItem(items[0]) + more, |items|, Seen(items[0]), more, AllSeen(items[1..]), rest);
      ItemsFront(items, rest);
    }
  }

  lemma NoItems(rest: seq<byte>)
    ensures ReadBulks(PrintItems([]) + rest, 0) == Got(AllSeen([]), rest)
  {
    assert PrintItems([]) + rest == rest;
  }

  lemma ItemsFront(items: seq<Item>, rest: seq<byte>)
    requires items != []
    ensures PrintItems(items) + rest == PrintItem(items[0]) + (PrintItems(items[1..]) + rest)
    ensures AllSeen(items) == [Seen(items[0])] + AllSeen(items[1..])
  {
    hide PrintItem, Seen;
    ConcatAssociative(PrintItem(items[0]), PrintItems(items[1..]), rest);
  }

  lemma MultiBulkRoundTrip(items: seq<Item>, rest: seq<byte>)
    requires Sayable(SayMultiBulk(items))
    ensures ReadMultiBulk(PrintAnswer(SayMultiBulk(items)) + rest) == Got(AllSeen(items), rest)
    ensures ReadReply(PrintAnswer(SayMultiBulk(items)) + rest) == Got(MultiBulk(AllSeen(items)), rest)
  {
    hide ReadLength, ReadBulks, PrintHeader, PrintItems, Fits;
    FirstByte(PREFIX_MULTI_BULK, |items|, PrintItems(items) + rest);
    ConcatAssociative(PrintHeader(PREFIX_MULTI_BULK, |items|), PrintItems(items), rest);
    ReadHeader(PREFIX_MULTI_BULK, |items|, PrintItems(items) + rest);
    ItemsRoundTrip(items, rest);
  }

  /** A missing list is an error to the client. */
  lemma NoListFails(rest: seq<byte>)
    ensures ReadReply(PrintAnswer(SayNoList) + rest) == Failed(NoSuchKey, rest)
    ensures ReadMultiBulk(PrintAnswer(SayNoList) + rest) == Failed(NoSuchKey, rest)
  {
    hide ReadLength;
    NilLength(PREFIX_MULTI_BULK, rest);
    assert NIL_MULTI_BULK + rest == [PREFIX_MULTI_BULK, MINUS, 49] + CRLF + rest;
  }

  lemma BulkRoundTrip(item: Item, rest: seq<byte>)
    requires Fits(item)
    ensures ReadReply(PrintAnswer(SayBulk(item)) + rest) == Got(Bulk(Seen(item)), rest)
  {
    hide ReadBulk, PrintItem, Fits;
    ItemRoundTrip(item, rest);
  }

  /** Every answer a server can say is read as what it is heard as, exceptions
      included, and its bytes and no others are consumed. */
  lemma ReplyRoundTrip(a: Answer, rest: seq<byte>)
    requires Sayable(a)
    ensures ReadReply(PrintAnswer(a) + rest) == Before(Heard(a), rest)
  {
    hide ReadReply, PrintAnswer, Fits, OneLine, Seen;
    match a
    case SayStatus(text) => StatusRoundTrip(text, rest);
    case SayError(code, text) => ErrorRoundTrip(code, text, rest);
    case SayInt(n) => IntRoundTrip(n, rest);
    case SayBulk(item) => BulkRoundTrip(item, rest);
    case SayMultiBulk(items) => MultiBulkRoundTrip(items, rest);
    case SayNoList => NoListFails(rest);
  }

  // ----- several answers on one connection -----

  function PrintAnswers(answers: seq<Answer>): seq<byte> {
    if answers == [] then [] else PrintAnswer(answers[0]) + PrintAnswers(answers[1..])
  }

  lemma {:induction false} PrintAnswersConcat(a: seq<Answer>, b: seq<Answer>)
    ensures PrintAnswers(a + b) == PrintAnswers(a) + PrintAnswers(b)
    decreases |a|
  {
    hide PrintAnswer;
    if a == [] {
      assert a + b == b;
    } else {
      assert (a + b)[1..] == a[1..] + b;
      PrintAnswersConcat(a[1..], b);
      ConcatAssociative(PrintAnswer(a[0]), PrintAnswers(a[1..]), PrintAnswers(b));
    }
  }

  lemma PrintAnswersFront(answers: seq<Answer>)
    requires answers != []
    ensures PrintAnswers(answers) == PrintAnswer(answers[0]) + PrintAnswers(answers[1..])
  {
  }

  /** Answers that stand behind each other on a connection come off one by one: the
      bytes behave as the queue of answers they print. */
  lemma RepliesInOrder(answers: seq<Answer>)
    requires answers != [] && Sayable(answers[0])
    ensures ReadReply(PrintAnswers(answers)) == Before(Heard(answers[0]), PrintAnswers(answers[1..]))
  {
    hide ReadReply, PrintAnswer, Sayable, PrintAnswers, Heard;
    PrintAnswersFront(answers);
    ReplyRoundTrip(answers[0], PrintAnswers(answers[1..]));
  }

  /** The same where the client insists on a list: it gets the items of a list and
      fails on an error or a missing list. */
  lemma ListsInOrder(answers: seq<Answer>)
    requires answers != [] && Sayable(answers[0])
    requires answers[0].SayMultiBulk? || answers[0].SayError? || answers[0].SayNoList?
    ensures ReadMultiBulk(PrintAnswers(answers)) == Before(HeardList(answers[0]), PrintAnswers(answers[1..]))
  {
    hide ReadMultiBulk, PrintAnswer, PrintAnswers, Fits, OneLine, Seen;
    PrintAnswersFront(answers);
    match answers[0]
    case SayMultiBulk(items) => MultiBulkRoundTrip(items, PrintAnswers(answers[1..]));
    case SayError(code, text) => ErrorRoundTrip(code, text, PrintAnswers(answers[1..]));
    case SayNoList => NoListFails(PrintAnswers(answers[1..]));
    case _ =>
  }
}
