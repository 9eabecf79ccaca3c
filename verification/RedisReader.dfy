/** The readers of brtServer/redisclient.h, which take a reply off a socket in
    pieces whose sizes they do not control, and the command builder. */
module RedisReader {
  import opened Bytes
  import opened Resp
  import opened Sequences

  /** A blocking socket. recv returns some bytes from the front of what the server
      sent, how many is up to the network; with nothing left the connection is
      closed. A recv that follows a peek returns the peeked bytes. */
  class Socket {
    var stream: seq<byte>

    constructor (stream: seq<byte>)
      ensures this.stream == stream
    {
      this.stream := stream;
    }

    method Peek(n: nat) returns (bytes: seq<byte>)
      requires n > 0
      ensures stream == [] ==> bytes == []
      ensures stream != [] ==> 0 < |bytes| <= n && bytes <= stream
    {
      if stream == [] {
        return [];
      }
      var k: nat :| 0 < k <= n && k <= |stream|;
      return stream[..k];
    }

    method RecvPeeked(n: nat) returns (bytes: seq<byte>)
      requires n <= |stream|
      modifies this
      ensures bytes == old(stream[..n]) && stream == old(stream[n..])
    {
      bytes, stream := stream[..n], stream[n..];
    }

    method Recv(n: nat) returns (bytes: seq<byte>)
      requires n > 0
      modifies this
      ensures old(stream) == [] ==> bytes == [] && stream == []
      ensures old(stream) != [] ==> 0 < |bytes| <= n && old(stream) == bytes + stream
    {
      bytes := Peek(n);
      stream := stream[|bytes|..];
    }
  }

  datatype Result<+T> = Success(value: T) | Failure(error: Error)

  /** What a reader promises: the value the parser finds at the front of the stream,
      or the parser's error, and in either case the stream the parser leaves. */
  ghost predicate Follows<T>(spec: Read<T>, result: Result<T>, rest: seq<byte>) {
    match spec
    case Got(value, end) => result == Success(value) && rest == end
    case Failed(error, end) => result == Failure(error) && rest == end
  }

  const BUFFER_SIZE: nat := 64

  /** Read a line by peeking: what was peeked is taken off the socket up to the
      newline, or whole when there is none in it. */
  method ReadLine(socket: Socket) returns (line: Result<seq<byte>>)
    modifies socket
    ensures Follows(Resp.ReadLine(old(socket.stream)), line, socket.stream)
  {
    hide Rtrim, LineLength;
    var oss: seq<byte> := [];
    ghost var all := socket.stream;
    while true
      invariant oss + socket.stream == all && LF !in oss
      decreases |socket.stream|
    {
      var buffer := socket.Peek(BUFFER_SIZE);
      if buffer == [] {
        assert all == oss;
        return Failure(ConnectionClosed);
      }
      var eol := Memchr(buffer, LF);
      if eol < |buffer| {
        assert socket.stream[..eol] == buffer[..eol];
        LineFound(oss, socket.stream, eol);
        var taken := socket.RecvPeeked(eol + 1);
        return Success(Rtrim(oss + taken));
      }
      assert buffer[..eol] == buffer;
      assert socket.stream == buffer + socket.stream[|buffer|..];
      var taken := socket.RecvPeeked(|buffer|);
      ConcatAssociative(oss, taken, socket.stream);
      oss := oss + taken;
    }
  }

  method Memchr(buffer: seq<byte>, c: byte) returns (i: nat)
    ensures i <= |buffer| && c !in buffer[..i]
    ensures i < |buffer| ==> buffer[i] == c
  {
    i := 0;
    while i < |buffer| && buffer[i] != c
      invariant i <= |buffer| && c !in buffer[..i]
    {
      i := i + 1;
    }
  }

  lemma LineFound(before: seq<byte>, stream: seq<byte>, eol: nat)
    requires LF !in before && eol < |stream| && LF !in stream[..eol] && stream[eol] == LF
    ensures Resp.ReadLine(before + stream) == Got(Rtrim(before + stream[..eol + 1]), stream[eol + 1..])
  {
    hide Rtrim, LineLength;
    LineSplit(before, stream, eol);
    LineLengthOf(before + stream[..eol], stream[eol + 1..]);
    CutSecond(before, stream, eol + 1);
  }

  lemma LineSplit(before: seq<byte>, stream: seq<byte>, eol: nat)
    requires eol < |stream| && stream[eol] == LF
    ensures before + stream == before + stream[..eol] + [LF] + stream[eol + 1..] && LF in before + stream
  {
  }

  /** Read exactly n bytes, however they arrive. */
  method ReadN(socket: Socket, n: nat) returns (data: Result<seq<byte>>)
    modifies socket
    ensures |old(socket.stream)| < n ==> data == Failure(ConnectionClosed) && socket.stream == []
    ensures |old(socket.stream)| >= n ==>
      data == Success(old(socket.stream)[..n]) && socket.stream == old(socket.stream)[n..]
  {
    var buffer: seq<byte> := [];
    while |buffer| != n
      invariant |buffer| <= n && buffer + socket.stream == old(socket.stream)
      decreases n - |buffer|
    {
      var received := socket.Recv(n - |buffer|);
      if received == [] {
        return Failure(ConnectionClosed);
      }
      ConcatAssociative(buffer, received, socket.stream);
      buffer := buffer + received;
    }
    return Success(buffer);
  }

  /** recv_bulk_reply_ with a prefix: the length line of a reply. */
  method RecvLength(socket: Socket, prefix: byte) returns (length: Result<int>)
    modifies socket
    ensures Follows(ReadLength(old(socket.stream), prefix), length, socket.stream)
  {
    hide ParseLong, Resp.ReadLine;
    var line := ReadLine(socket);
    if line.Failure? {
      return Failure(line.error);
    }
    if line.value == [] || line.value[0] != prefix {
      return Failure(ProtocolError);
    }
    match ParseLong(line.value[1..])
    case Value(n) => return Success(n);
    case NotANumber => return Failure(BadCast);
  }

  /** recv_bulk_reply_: the data of one bulk reply. */
  method RecvBulk(socket: Socket) returns (data: Result<seq<byte>>)
    modifies socket
    ensures Follows(ReadBulk(old(socket.stream)), data, socket.stream)
  {
    hide ReadLength, MISSING_VALUE;
    var length := RecvLength(socket, PREFIX_SINGLE_BULK);
    if length.Failure? {
      return Failure(length.error);
    }
    if length.value == -1 {
      return Success(MISSING_VALUE);
    }
    var realLength := length.value + 2;
    if realLength < 0 || realLength > MAX_LONG {
      return Failure(BadLength);
    }
    ghost var stream := socket.stream;
    data := ReadN(socket, realLength);
    if data.Failure? {
      return;
    }
    if data.value == [] {
      return Failure(ProtocolError);
    }
    DropTwo(stream, realLength);
    data := Success(data.value[..|data.value| - 2]);
  }

  lemma DropTwo(stream: seq<byte>, n: nat)
    requires 2 <= n <= |stream|
    ensures stream[..n][..n - 2] == stream[..n - 2]
  {
  }

  /** recv_multi_bulk_reply_ into an empty vector. */
  method RecvMultiBulk(socket: Socket) returns (out: Result<seq<seq<byte>>>)
    modifies socket
    ensures Follows(ReadMultiBulk(old(socket.stream)), out, socket.stream)
  {
    hide ReadLength, ReadBulk;
    var length := RecvLength(socket, PREFIX_MULTI_BULK);
    if length.Failure? {
      return Failure(length.error);
    }
    if length.value == -1 {
      return Failure(NoSuchKey);
    }
    if length.value < 0 {
      return Failure(BadLength);
    }
    var items: seq<seq<byte>> := [];
    var i := 0;
    ghost var whole := ReadBulks(socket.stream, length.value);
    ExtendedNone(whole);
    while i < length.value
      invariant 0 <= i <= length.value
      invariant whole == Extended(items, ReadBulks(socket.stream, length.value - i))
    {
      ghost var before := socket.stream;
      var item := RecvBulk(socket);
      if item.Failure? {
        return Failure(item.error);
      }
      ExtendedMore(items, item.value, ReadBulks(socket.stream, length.value - i - 1));
      items := items + [item.value];
      i := i + 1;
    }
    assert items + [] == items;
    return Success(items);
  }

  ghost function Extended(items: seq<seq<byte>>, r: Read<seq<seq<byte>>>): Read<seq<seq<byte>>> {
    match r
    case Got(more, rest) => Got(items + more, rest)
    case Failed(e, rest) => Failed(e, rest)
  }

  lemma ExtendedNone(r: Read<seq<seq<byte>>>)
    ensures Extended([], r) == r
  {
    if r.Got? {
      assert [] + r.value == r.value;
    }
  }

  lemma ExtendedMore(items: seq<seq<byte>>, x: seq<byte>, r: Read<seq<seq<byte>>>)
    ensures Extended(items, Extended([x], r)) == Extended(items + [x], r)
  {
    if r.Got? {
      ConcatAssociative(items, [x], r.value);
    }
  }

  // ----- requests -----

  /** The command builder: the name first, then parameters in the order given. */
  class MakeCmd {
    var lines: seq<seq<byte>>
    var hasKey: bool
    var keyName: seq<byte>

    constructor (cmdName: seq<byte>)
      ensures lines == [cmdName] && !hasKey
    {
      lines, hasKey, keyName := [cmdName], false, [];
    }

    method Append(param: seq<byte>)
      modifies this
      ensures lines == old(lines) + [param] && hasKey == old(hasKey) && keyName == old(keyName)
    {
      lines := lines + [param];
    }

    method AppendAll(data: seq<seq<byte>>)
      modifies this
      ensures lines == old(lines) + data && hasKey == old(hasKey) && keyName == old(keyName)
    {
      lines := lines + data;
    }

    /** A key is a parameter too, but a command has at most one. */
    method AppendKey(name: seq<byte>) returns (ok: bool)
      modifies this
      ensures ok == !old(hasKey)
      ensures ok ==> lines == old(lines) + [name] && hasKey && keyName == name
      ensures !ok ==> lines == old(lines) && hasKey && keyName == old(keyName)
    {
      if hasKey {
        return false;
      }
      Append(name);
      hasKey, keyName, ok := true, name, true;
    }

    /** The conversion to a request string. */
    method ToRequest() returns (oss: seq<byte>)
      ensures oss == PrintCommand(lines)
    {
      hide PrintHeader, Digits;
      oss := PrintHeader(PREFIX_MULTI_BULK, |lines|);
      ghost var header := oss;
      var i := 0;
      assert header + [] == header;
      while i < |lines|
        invariant 0 <= i <= |lines|
        invariant oss + PrintBulks(lines[i..]) == header + PrintBulks(lines)
      {
        var param := lines[i];
        assert lines[i..][1..] == lines[i + 1..];
        ConcatAssociative(oss, PrintBulk(param), PrintBulks(lines[i + 1..]));
        BulkPieces(oss, param);
        oss := oss + PrintHeader(PREFIX_SINGLE_BULK, |param|);
        oss := oss + param + CRLF;
        i := i + 1;
      }
      assert lines[|lines|..] == [];
      assert oss + [] == oss;
    }
  }

  lemma BulkPieces(oss: seq<byte>, param: seq<byte>)
    ensures oss + PrintHeader(PREFIX_SINGLE_BULK, |param|) + param + CRLF == oss + PrintBulk(param)
  {
  }
}
