/** What a bot tells the server about its games: the packets of
    ghost/pubprotocol.cpp and what brtServer/server.cpp reads out of them. */
module BotReports {
  import opened Bytes
  import opened Framing
  import opened GameInfo

  const PUB_CHATFROMGAME: byte := 0x56
  const PUB_PLAYERJOIN: byte := 0x58
  const PUB_PLAYERLEAVE: byte := 0x59
  const PUB_GAMEENDED: byte := 0x61
  const PUB_GAMESTARTED: byte := 0x62

  type Name = seq<byte>

  /** What the server makes of a packet. */
  datatype Event =
    | Create(game: Name, hostCounter: uint32)
    | Chat(hostCounter: uint32, game: Name, from: Name, text: seq<byte>)
    | Ended(game: Name)
    | Started(game: Name)
    | Join(login: Name, game: Name)
    | Leave(login: Name, game: Name)
    | Other

  /** What the bot sends packets about. */
  datatype Report = Announce(announcement: Announcement) | Tell(event: Event)

  // ----- the bot's packets -----

  function Text(s: seq<byte>): seq<byte> {
    s + [0]
  }

  function PubPacket(id: byte, body: seq<byte>): seq<byte> {
    Stamp([PUB_HEADER_CONSTANT, id, 0, 0] + body)
  }

  /** Creation is told by announcing the game, and only these events are told. */
  predicate Sendable(r: Report) {
    match r
    case Announce(g) => Buildable(g)
    case Tell(e) => !e.Create? && !e.Other?
  }

  function PacketOf(r: Report): seq<byte>
    requires Sendable(r)
  {
    match r
    case Announce(g) => GameInfoPacket(g)
    case Tell(Chat(hostCounter, game, from, text)) =>
      PubPacket(PUB_CHATFROMGAME, U32Bytes(hostCounter) + Text(game) + Text(from) + Text(text))
    case Tell(Ended(game)) => PubPacket(PUB_GAMEENDED, Text(game))
    case Tell(Started(game)) => PubPacket(PUB_GAMESTARTED, Text(game))
    case Tell(Join(login, game)) => PubPacket(PUB_PLAYERJOIN, Text(login) + Text(game))
    case Tell(Leave(login, game)) => PubPacket(PUB_PLAYERLEAVE, Text(login) + Text(game))
  }

  /** What the report is about. */
  function Meaning(r: Report): Event {
    match r
    case Announce(g) => Create(g.gameName, g.hostCounter)
    case Tell(e) => e
  }

  /** No null byte in any of the strings. */
  predicate ZeroFree(e: Event) {
    match e
    case Create(game, _) => 0 !in game
    case Chat(_, game, from, text) => 0 !in game && 0 !in from && 0 !in text
    case Ended(game) => 0 !in game
    case Started(game) => 0 !in game
    case Join(login, game) => 0 !in login && 0 !in game
    case Leave(login, game) => 0 !in login && 0 !in game
    case Other => true
  }

  // ----- the server's reading -----

  /** The fixed-size parts the server reads without looking at the size. */
  predicate Readable(p: CommandPacket) {
    && |p.data| >= 4
    && (p.packetType == W3GS_HEADER_CONSTANT && p.id == W3GS_GAMEINFO ==> |p.data| >= 20)
    && (p.packetType == PUB_HEADER_CONSTANT && p.id == PUB_CHATFROMGAME ==> |p.data| >= 8)
  }

  /** Two strings, the second behind the first one's terminator. */
  function TwoTexts(data: seq<byte>): (seq<byte>, seq<byte>) {
    var first := CStringAt(data, 4);
    (first, CStringAt(data, |first| + 5))
  }

  function ReadChat(data: seq<byte>): Event {
    var game := CStringAt(data, 8);
    var from := CStringAt(data, |game| + 9);
    Chat(U32At(data, 4), game, from, CStringAt(data, |game| + |from| + 10))
  }

  function EventOf(p: CommandPacket): Event
    requires Readable(p)
  {
    if p.packetType == R_PROXY_CONSTANT then Other
    else if p.packetType == W3GS_HEADER_CONSTANT then
      if p.id == W3GS_GAMEINFO then Create(Parse(p.data).gameName, Parse(p.data).hostCounter) else Other
    else if p.packetType != PUB_HEADER_CONSTANT then Other
    else if p.id == PUB_CHATFROMGAME then ReadChat(p.data)
    else if p.id == PUB_GAMEENDED then Ended(CStringAt(p.data, 4))
    else if p.id == PUB_GAMESTARTED then Started(CStringAt(p.data, 4))
    else if p.id == PUB_PLAYERJOIN then Join(TwoTexts(p.data).0, TwoTexts(p.data).1)
    else if p.id == PUB_PLAYERLEAVE then Leave(TwoTexts(p.data).0, TwoTexts(p.data).1)
    else Other
  }

  // ----- the two together -----

  lemma PubPacketShape(id: byte, body: seq<byte>)
    ensures var p := PubPacket(id, body);
      && |p| == 4 + |body| && p == p[..4] + body && p[0] == PUB_HEADER_CONSTANT && p[1] == id
      && (|p| <= 65535 ==> U16At(p, 2) == |p|)
  {
  }

  lemma OneText(head: seq<byte>, s: seq<byte>, rest: seq<byte>)
    ensures CStringAt(head + (Text(s) + rest), |head|) == s <==> 0 !in s
  {
    hide CStringAt;
    CStringRoundTrip(head, s, rest);
    assert head + (Text(s) + rest) == head + s + [0] + rest;
  }

  lemma TwoTextsExact(head: seq<byte>, a: seq<byte>, b: seq<byte>)
    requires |head| == 4
    ensures TwoTexts(head + (Text(a) + Text(b))) == (a, b) <==> 0 !in a && 0 !in b
  {
    hide CStringAt;
    OneText(head, a, Text(b));
    OneText(head + Text(a), b, []);
    assert head + Text(a) + (Text(b) + []) == head + (Text(a) + Text(b));
  }

  lemma ChatExact(head: seq<byte>, hostCounter: uint32, game: seq<byte>, from: seq<byte>, text: seq<byte>)
    requires |head| == 4
    ensures var data := head + (U32Bytes(hostCounter) + Text(game) + Text(from) + Text(text));
      ReadChat(data) == Chat(hostCounter, game, from, text) <==> 0 !in game && 0 !in from && 0 !in text
  {
    hide CStringAt, U32At, U32Bytes;
    var data := head + (U32Bytes(hostCounter) + Text(game) + Text(from) + Text(text));
    var front := head + U32Bytes(hostCounter);
    FourBytes(hostCounter);
    assert data == head + U32Bytes(hostCounter) + (Text(game) + Text(from) + Text(text));
    U32RoundTrip(head, hostCounter, Text(game) + Text(from) + Text(text));
    assert data == front + (Text(game) + (Text(from) + Text(text)));
    OneText(front, game, Text(from) + Text(text));
    assert data == (front + Text(game)) + (Text(from) + Text(text));
    OneText(front + Text(game), from, Text(text));
    assert data == (front + Text(game) + Text(from)) + (Text(text) + []);
    OneText(front + Text(game) + Text(from), text, []);
  }

  lemma FourBytes(n: uint32)
    ensures |U32Bytes(n)| == 4
  {
  }

  /** The bytes of a report: header 0x10, the number of its kind, the length, and its
      strings with a zero behind each. */
  lemma ReportBytes(e: Event)
    requires Sendable(Tell(e)) && |PacketOf(Tell(e))| <= 65535
    ensures var p := PacketOf(Tell(e));
      && |p| >= 4 && p[0] == 0x10 && U16At(p, 2) == |p|
      && match e
         case Chat(hostCounter, game, from, text) =>
           && p[1] == 0x56 && U32At(p, 4) == hostCounter
           && |p| >= 8 && p[8..] == game + [0] + from + [0] + text + [0]
         case Join(login, game) => p[1] == 0x58 && p[4..] == login + [0] + game + [0]
         case Leave(login, game) => p[1] == 0x59 && p[4..] == login + [0] + game + [0]
         case Ended(game) => p[1] == 0x61 && p[4..] == game + [0]
         case Started(game) => p[1] == 0x62 && p[4..] == game + [0]
  {
    hide PubPacket, U32Bytes, U32At, U16At;
    match e
    case Chat(hostCounter, game, from, text) =>
      var strings := game + [0] + from + [0] + text + [0];
      var p := PacketOf(Tell(e));
      FourBytes(hostCounter);
      assert U32Bytes(hostCounter) + Text(game) + Text(from) + Text(text) == U32Bytes(hostCounter) + strings;
      PubPacketShape(PUB_CHATFROMGAME, U32Bytes(hostCounter) + strings);
      U32RoundTrip(p[..4], hostCounter, strings);
      assert p == p[..4] + U32Bytes(hostCounter) + strings;
    case Join(login, game) =>
      PubPacketShape(PUB_PLAYERJOIN, Text(login) + Text(game));
      assert Text(login) + Text(game) == login + [0] + game + [0];
    case Leave(login, game) =>
      PubPacketShape(PUB_PLAYERLEAVE, Text(login) + Text(game));
      assert Text(login) + Text(game) == login + [0] + game + [0];
    case Ended(game) => PubPacketShape(PUB_GAMEENDED, Text(game));
    case Started(game) => PubPacketShape(PUB_GAMESTARTED, Text(game));
  }

  /** A packet that carries one string. */
  lemma OneTextExact(head: seq<byte>, s: seq<byte>)
    requires |head| == 4
    ensures CStringAt(head + Text(s), 4) == s <==> 0 !in s
  {
    hide CStringAt;
    OneText(head, s, []);
    assert head + (Text(s) + []) == head + Text(s);
  }

  /** The server understands a report exactly when none of its strings holds a
      null byte, whatever its size. */
  lemma ReportUnderstood(r: Report)
    requires Sendable(r)
    ensures |PacketOf(r)| >= 4 && Readable(ToPacket(PacketOf(r)))
    ensures EventOf(ToPacket(PacketOf(r))) == Meaning(r) <==> ZeroFree(Meaning(r))
  {
    hide Parse, PubPacket, GameInfoPacket, TwoTexts, ReadChat, CStringAt, Text, U32Bytes, Buildable;
    match r
    case Announce(g) =>
      AnnouncementRecovered(g);
      AnnouncementHead(g);
    case Tell(Chat(hostCounter, game, from, text)) =>
      var body := U32Bytes(hostCounter) + Text(game) + Text(from) + Text(text);
      FourBytes(hostCounter);
      PubPacketShape(PUB_CHATFROMGAME, body);
      ChatExact(PacketOf(r)[..4], hostCounter, game, from, text);
    case Tell(Ended(game)) =>
      PubPacketShape(PUB_GAMEENDED, Text(game));
      OneTextExact(PacketOf(r)[..4], game);
    case Tell(Started(game)) =>
      PubPacketShape(PUB_GAMESTARTED, Text(game));
      OneTextExact(PacketOf(r)[..4], game);
    case Tell(Join(login, game)) =>
      PubPacketShape(PUB_PLAYERJOIN, Text(login) + Text(game));
      TwoTextsExact(PacketOf(r)[..4], login, game);
    case Tell(Leave(login, game)) =>
      PubPacketShape(PUB_PLAYERLEAVE, Text(login) + Text(game));
      TwoTextsExact(PacketOf(r)[..4], login, game);
  }

  lemma AnnouncementHead(g: Announcement)
    requires Buildable(g)
    ensures |GameInfoPacket(g)| >= 20 && GameInfoPacket(g)[0] == W3GS_HEADER_CONSTANT
      && GameInfoPacket(g)[1] == W3GS_GAMEINFO
  {
  }

  /** A report that fits the length field is one frame of the bot's stream. */
  lemma ReportIsFrame(r: Report)
    requires Sendable(r)
    ensures IsFrame(BOT_HEADERS, PacketOf(r)) <==> |PacketOf(r)| <= 65535
  {
    hide Text, U32Bytes, GameInfoPacket, U16At, Stamp;
    match r
    case Announce(g) =>
      AnnouncementIsFrame(g);
    case Tell(Chat(hostCounter, game, from, text)) =>
      PubIsFrame(PUB_CHATFROMGAME, U32Bytes(hostCounter) + Text(game) + Text(from) + Text(text));
    case Tell(Ended(game)) => PubIsFrame(PUB_GAMEENDED, Text(game));
    case Tell(Started(game)) => PubIsFrame(PUB_GAMESTARTED, Text(game));
    case Tell(Join(login, game)) => PubIsFrame(PUB_PLAYERJOIN, Text(login) + Text(game));
    case Tell(Leave(login, game)) => PubIsFrame(PUB_PLAYERLEAVE, Text(login) + Text(game));
  }

  lemma PubIsFrame(id: byte, body: seq<byte>)
    ensures IsFrame(BOT_HEADERS, PubPacket(id, body)) <==> |PubPacket(id, body)| <= 65535
  {
  }
}
