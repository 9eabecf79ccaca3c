/** Cutting a TCP byte stream into length-prefixed packets. The player, battle.net
    and client versions share one loop body; they differ in the header bytes
    they accept. */
module Framing {
  import opened Bytes
  import opened Sequences

  const W3GS_HEADER_CONSTANT: byte := 247
  const GPS_HEADER_CONSTANT: byte := 248
  const BNET_HEADER_CONSTANT: byte := 255
  const PUB_HEADER_CONSTANT: byte := 0x10
  const R_PROXY_CONSTANT: byte := 240

  const PLAYER_HEADERS: set<byte> := {W3GS_HEADER_CONSTANT, GPS_HEADER_CONSTANT}
  const BNET_HEADERS: set<byte> := {BNET_HEADER_CONSTANT}
  const CLIENT_HEADERS: set<byte> := {PUB_HEADER_CONSTANT, W3GS_HEADER_CONSTANT}
  const BOT_HEADERS: set<byte> := {PUB_HEADER_CONSTANT, W3GS_HEADER_CONSTANT, R_PROXY_CONSTANT}

  /** The bytes that packets of the four connections may start with. */
  lemma HeaderBytes()
    ensures PLAYER_HEADERS == {247, 248} && BNET_HEADERS == {255}
    ensures CLIENT_HEADERS == {16, 247} && BOT_HEADERS == {16, 247, 240}
  {
  }

  datatype CommandPacket = CommandPacket(packetType: byte, id: byte, data: seq<byte>)

  /** Why the extraction loop stopped: more bytes are needed, or the packet at
      the front of the buffer is malformed. */
  datatype Outcome = Waiting | BadLength | BadHeader

  datatype Extraction = Extraction(packets: seq<CommandPacket>, rest: seq<byte>, outcome: Outcome)

  /** A buffer holding exactly one packet whose length field is right. */
  predicate IsFrame(headers: set<byte>, p: seq<byte>) {
    |p| >= 4 && p[0] in headers && U16At(p, 2) == |p|
  }

  function ToPacket(p: seq<byte>): CommandPacket
    requires |p| >= 4
  {
    CommandPacket(p[0], p[1], p)
  }

  /** The packets at the front of a buffer, and what is left of it. */
  function Extract(headers: set<byte>, b: seq<byte>): (x: Extraction)
    ensures |x.rest| < 4 ==> x.outcome == Waiting
    decreases |b|
  {
    if |b| < 4 then Extraction([], b, Waiting)
    else if b[0] !in headers then Extraction([], b, BadHeader)
    else
      var length := U16At(b, 2);
      if length < 4 then Extraction([], b, BadLength)
      else if |b| < length then Extraction([], b, Waiting)
      else
        var tail := Extract(headers, b[length..]);
        Extraction([ToPacket(b[..length])] + tail.packets, tail.rest, tail.outcome)
  }

  /** The next call of an extractor, with one more chunk in its receive buffer. */
  function Feed(headers: set<byte>, before: Extraction, chunk: seq<byte>): Extraction {
    var next := Extract(headers, before.rest + chunk);
    Extraction(before.packets + next.packets, next.rest, next.outcome)
  }

  function FeedAll(headers: set<byte>, before: Extraction, chunks: seq<seq<byte>>): Extraction
    decreases |chunks|
  {
    if chunks == [] then before
    else FeedAll(headers, Feed(headers, before, chunks[0]), chunks[1..])
  }

  /** The first packet of a buffer is taken off and the rest extracted. */
  lemma ExtractFront(headers: set<byte>, front: seq<byte>, back: seq<byte>)
    requires IsFrame(headers, front)
    ensures var tail := Extract(headers, back);
      Extract(headers, front + back) == Extraction([ToPacket(front)] + tail.packets, tail.rest, tail.outcome)
  {
  }

  /** A buffer either starts with a packet or yields none. */
  lemma ExtractCases(headers: set<byte>, b: seq<byte>)
    ensures Extract(headers, b).packets == [] ==> Extract(headers, b).rest == b
    ensures Extract(headers, b).packets != [] <==> StartsWithFrame(headers, b)
  {
  }

  predicate StartsWithFrame(headers: set<byte>, b: seq<byte>) {
    |b| >= 4 && b[0] in headers && 4 <= U16At(b, 2) <= |b|
  }

  function FrontFrame(b: seq<byte>): (p: seq<byte>)
    requires |b| >= 4 && 4 <= U16At(b, 2) <= |b|
    ensures |p| == U16At(b, 2) && U16At(p, 2) == |p| && p[0] == b[0] && b == p + b[|p|..]
  {
    b[..U16At(b, 2)]
  }

  /** Two calls on the two halves of a stream do what one call on the whole does. */
  lemma {:induction false} ExtractSplit(headers: set<byte>, a: seq<byte>, b: seq<byte>)
    ensures Extract(headers, a + b) == Feed(headers, Extract(headers, a), b)
    decreases |a|
  {
    if StartsWithFrame(headers, a) {
      hide Extract, U16At;
      var front := FrontFrame(a);
      var back := a[|front|..];
      ExtractSplit(headers, back, b);
      ExtractFront(headers, front, back);
      ExtractFront(headers, front, back + b);
      ConcatAssociative(front, back, b);
      var t := Extract(headers, back);
      ConcatAssociative([ToPacket(front)], t.packets, Extract(headers, t.rest + b).packets);
    } else if |a| >= 4 {
      assert U16At(a + b, 2) == U16At(a, 2);
    }
  }

  /** Extraction is independent of chunking: however TCP splits the stream, the
      queued packets, the leftover bytes and the outcome are those of one call. */
  lemma {:induction false} ChunkingIrrelevant(headers: set<byte>, sofar: seq<byte>, chunks: seq<seq<byte>>)
    ensures FeedAll(headers, Extract(headers, sofar), chunks) == Extract(headers, sofar + Flatten(chunks))
    decreases |chunks|
  {
    hide Extract;
    if chunks == [] {
      assert sofar + Flatten(chunks) == sofar;
    } else {
      ExtractSplit(headers, sofar, chunks[0]);
      ChunkingIrrelevant(headers, sofar + chunks[0], chunks[1..]);
      assert sofar + Flatten(chunks) == (sofar + chunks[0]) + Flatten(chunks[1..]);
    }
  }

  function Datas(ps: seq<CommandPacket>): seq<seq<byte>> {
    if ps == [] then [] else [ps[0].data] + Datas(ps[1..])
  }

  /** No byte is lost or invented: packets and leftover make up the buffer. */
  lemma {:induction false} ExtractConserves(headers: set<byte>, b: seq<byte>)
    ensures var x := Extract(headers, b);
      Flatten(Datas(x.packets)) + x.rest == b
    decreases |b|
  {
    hide Extract, U16At;
    ExtractCases(headers, b);
    if StartsWithFrame(headers, b) {
      var front := FrontFrame(b);
      ExtractConserves(headers, b[|front|..]);
      ExtractFront(headers, front, b[|front|..]);
      assert Extract(headers, b).packets[1..] == Extract(headers, b[|front|..]).packets;
    }
  }

  /** Why extraction stops, told by the leftover: its first byte is no header, its
      length field is below four, or it is the front part of a packet. */
  predicate StopsFor(headers: set<byte>, rest: seq<byte>, outcome: Outcome) {
    match outcome
    case BadHeader => |rest| >= 4 && rest[0] !in headers
    case BadLength => |rest| >= 4 && rest[0] in headers && U16At(rest, 2) < 4
    case Waiting => |rest| < 4 || (rest[0] in headers && 4 <= U16At(rest, 2) && |rest| < U16At(rest, 2))
  }

  lemma StopsAtOnce(headers: set<byte>, b: seq<byte>)
    requires !StartsWithFrame(headers, b)
    ensures StopsFor(headers, b, Extract(headers, b).outcome)
  {
  }

  /** Every extracted packet would pass ValidateLength, and the leftover never
      starts with a complete packet and tells why the extraction stopped. */
  lemma {:induction false} ExtractSound(headers: set<byte>, b: seq<byte>)
    ensures forall p | p in Extract(headers, b).packets :: IsFrame(headers, p.data) && p == ToPacket(p.data)
    ensures !StartsWithFrame(headers, Extract(headers, b).rest)
    ensures StopsFor(headers, Extract(headers, b).rest, Extract(headers, b).outcome)
    decreases |b|
  {
    hide Extract, U16At, StopsFor;
    ExtractCases(headers, b);
    if !StartsWithFrame(headers, b) {
      StopsAtOnce(headers, b);
    }
    if StartsWithFrame(headers, b) {
      var front := FrontFrame(b);
      ExtractSound(headers, b[|front|..]);
      ExtractFront(headers, front, b[|front|..]);
    }
  }

  ghost predicate AllFrames(headers: set<byte>, ps: seq<seq<byte>>) {
    forall i | 0 <= i < |ps| :: IsFrame(headers, ps[i])
  }

  function ToPackets(ps: seq<seq<byte>>): seq<CommandPacket>
    requires forall i | 0 <= i < |ps| :: |ps[i]| >= 4
  {
    if ps == [] then [] else [ToPacket(ps[0])] + ToPackets(ps[1..])
  }

  lemma ExtractOne(headers: set<byte>, p: seq<byte>)
    requires IsFrame(headers, p)
    ensures Extract(headers, p) == Extraction([ToPacket(p)], [], Waiting)
  {
    ExtractFront(headers, p, []);
    assert p + [] == p;
  }

  /** Sending well-formed packets back to back and extracting gives them back. */
  lemma {:induction false} ExtractConcat(headers: set<byte>, ps: seq<seq<byte>>)
    requires AllFrames(headers, ps)
    ensures Extract(headers, Flatten(ps)) == Extraction(ToPackets(ps), [], Waiting)
  {
    if ps != [] {
      hide Extract, U16At;
      ExtractConcat(headers, ps[1..]);
      ExtractFront(headers, ps[0], Flatten(ps[1..]));
    }
  }

  // ----- length field -----

  /** The buffer after AssignLength: the size in bytes 2 and 3 when it fits there. */
  function Stamp(p: seq<byte>): seq<byte> {
    if 4 <= |p| <= 65535 then p[2 := (|p| % 256) as byte][3 := (|p| / 256) as byte] else p
  }

  method AssignLength(content: array<byte>) returns (ok: bool)
    modifies content
    ensures ok <==> 4 <= content.Length <= 65535
    ensures content[..] == Stamp(old(content[..]))
  {
    if 4 <= content.Length <= 65535 {
      var lengthBytes := U16Bytes(content.Length);
      content[2] := lengthBytes[0];
      content[3] := lengthBytes[1];
      return true;
    }
    return false;
  }

  method ValidateLength(content: array<byte>) returns (ok: bool)
    ensures ok <==> 4 <= content.Length <= 65535 && U16At(content[..], 2) == content.Length
  {
    if 4 <= content.Length <= 65535 {
      var lengthBytes := [content[2], content[3]];
      if U16At(lengthBytes, 0) == content.Length {
        return true;
      }
    }
    return false;
  }

  /** A stamped buffer is a frame exactly when its header is accepted and its
      size fits the length field; stamping touches only that field. */
  lemma StampMakesFrame(headers: set<byte>, p: seq<byte>)
    ensures |Stamp(p)| == |p|
    ensures forall i | 0 <= i < |p| && i != 2 && i != 3 :: Stamp(p)[i] == p[i]
    ensures 4 <= |p| <= 65535 ==> (IsFrame(headers, Stamp(p)) <==> p[0] in headers)
    ensures |p| < 4 || |p| > 65535 ==> !IsFrame(headers, Stamp(p))
  {
  }

  // ----- the bot-side extractor, which gives up on an incomplete packet -----

  /** ExtractBotsPackets also returns false when the last packet is incomplete. */
  predicate BotsAccept(b: seq<byte>) {
    var x := Extract(BOT_HEADERS, b);
    x.outcome == Waiting && |x.rest| < 4
  }

  /** The bot-side extractor has no chunk independence: a complete stream it
      accepts is refused when the same bytes arrive in two reads. */
  lemma BotsChunkingMatters()
    ensures BotsAccept([16, 1, 5, 0, 9]) && !BotsAccept([16, 1, 5, 0])
  {
  }

  /** Reads one after the other, each going on with what the one before left. */
  predicate BotsAcceptAll(buffer: seq<byte>, chunks: seq<seq<byte>>)
    decreases |chunks|
  {
    chunks == [] ||
    (BotsAccept(buffer + chunks[0]) && BotsAcceptAll(Extract(BOT_HEADERS, buffer + chunks[0]).rest, chunks[1..]))
  }

  /** Exactly when a stream survives being read in pieces, after sofar has been read:
      each read must end less than four bytes into a packet, that is, the stream up
      to there must be acceptable. */
  lemma {:induction false} BotsSplitExact(sofar: seq<byte>, chunks: seq<seq<byte>>)
    requires Extract(BOT_HEADERS, sofar).outcome == Waiting
    ensures BotsAcceptAll(Extract(BOT_HEADERS, sofar).rest, chunks)
      <==> forall i | 0 < i <= |chunks| :: BotsAccept(sofar + Flatten(chunks[..i]))
    decreases |chunks|
  {
    hide Extract;
    if chunks != [] {
      ExtractSplit(BOT_HEADERS, sofar, chunks[0]);
      FirstChunks(sofar, chunks, 1);
      assert (sofar + chunks[0]) + Flatten(chunks[1..][..0]) == sofar + chunks[0];
      if BotsAccept(sofar + chunks[0]) {
        BotsSplitExact(sofar + chunks[0], chunks[1..]);
        forall i | 1 < i <= |chunks|
          ensures sofar + Flatten(chunks[..i]) == (sofar + chunks[0]) + Flatten(chunks[1..][..i - 1])
        {
          FirstChunks(sofar, chunks, i);
        }
        var more := chunks[1..];
        assert forall i | 0 < i <= |more| ::
          sofar + Flatten(chunks[..i + 1]) == (sofar + chunks[0]) + Flatten(more[..i]);
      }
    }
  }

  lemma FirstChunks(sofar: seq<byte>, chunks: seq<seq<byte>>, i: nat)
    requires 0 < i <= |chunks|
    ensures sofar + Flatten(chunks[..i]) == (sofar + chunks[0]) + Flatten(chunks[1..][..i - 1])
  {
    assert chunks[..i][1..] == chunks[1..][..i - 1];
    ConcatAssociative(sofar, chunks[0], Flatten(chunks[1..][..i - 1]));
  }
}
