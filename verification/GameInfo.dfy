/** The game announcement: the bot builds it (ghost/gameprotocol.cpp), the server
    takes it apart (brtServer/server.cpp). */
module GameInfo {
  import opened Bytes
  import opened Framing
  import StatString

  const W3GS_GAMEINFO: byte := 48
  const PRODUCT_ID_ROC: seq<byte> := [51, 82, 65, 87]
  const PRODUCT_ID_TFT: seq<byte> := [80, 88, 51, 87]
  const UNKNOWN2: seq<byte> := [1, 0, 0, 0]
  // "brtGHost"
  const DEFAULT_HOST: seq<byte> := [98, 114, 116, 71, 72, 111, 115, 116]

  datatype Announcement = Announcement(
    tft: bool, war3Version: byte, mapGameType: seq<byte>, mapFlags: seq<byte>, mapWidth: seq<byte>,
    mapHeight: seq<byte>, gameName: seq<byte>, hostName: seq<byte>, upTime: uint32, mapPath: seq<byte>,
    mapCRC: seq<byte>, slotsTotal: uint32, slotsOpen: uint32, port: uint16, hostCounter: uint32, entryKey: uint32)

  predicate Buildable(g: Announcement) {
    && |g.mapGameType| == 4 && |g.mapFlags| == 4 && |g.mapWidth| == 2 && |g.mapHeight| == 2
    && g.gameName != [] && g.mapPath != [] && |g.mapCRC| == 4
  }

  // ----- layout -----

  function HostName(g: Announcement): seq<byte> {
    if g.hostName == [] then DEFAULT_HOST else g.hostName
  }

  /** The map description before it is encoded. */
  function MapData(g: Announcement): seq<byte> {
    g.mapFlags + [0] + g.mapWidth + g.mapHeight + g.mapCRC + (g.mapPath + [0]) + (HostName(g) + [0]) + [0]
  }

  function Prefix(g: Announcement): (h: seq<byte>)
    ensures |h| == 12
  {
    [W3GS_HEADER_CONSTANT, W3GS_GAMEINFO, 0, 0] + (if g.tft then PRODUCT_ID_TFT else PRODUCT_ID_ROC)
      + [g.war3Version, 0, 0, 0]
  }

  /** Everything up to the game name. */
  function Header(g: Announcement): (h: seq<byte>)
    ensures |h| == 20
  {
    Prefix(g) + U32Bytes(g.hostCounter) + U32Bytes(g.entryKey)
  }

  /** Everything behind the encoded map description. */
  function Trailer(g: Announcement): (t: seq<byte>)
    requires Buildable(g)
    ensures |t| == 22
  {
    U32Bytes(g.slotsTotal) + g.mapGameType + UNKNOWN2 + U32Bytes(g.slotsOpen) + U32Bytes(g.upTime) + U16Bytes(g.port)
  }

  function Layout(header: seq<byte>, name: seq<byte>, stat: seq<byte>, trailer: seq<byte>): seq<byte> {
    header + (name + [0]) + [0] + stat + [0] + trailer
  }

  function GameInfoPacket(g: Announcement): seq<byte>
    requires Buildable(g)
  {
    Stamp(Layout(Header(g), g.gameName, StatString.Encode(MapData(g)), Trailer(g)))
  }

  // ----- the bot -----

  /** Wrong field sizes, an empty name or an empty path give an empty packet. */
  method SendGameInfo(g: Announcement) returns (packet: seq<byte>)
    ensures packet == if Buildable(g) then GameInfoPacket(g) else []
    ensures packet == []
      <==> |g.mapGameType| != 4 || |g.mapFlags| != 4 || |g.mapWidth| != 2 || |g.mapHeight| != 2
           || g.gameName == [] || g.mapPath == [] || |g.mapCRC| != 4
  {
    hide StatString.Encode, U32Bytes, U16Bytes, Stamp;
    if Buildable(g) {
      NotEmpty(g);
    }
    packet := [];
    var hostName := g.hostName;
    if hostName == [] {
      hostName := DEFAULT_HOST;
    }
    if |g.mapGameType| == 4 && |g.mapFlags| == 4 && |g.mapWidth| == 2 && |g.mapHeight| == 2
       && g.gameName != [] && hostName != [] && g.mapPath != [] && |g.mapCRC| == 4 {
      var statString := g.mapFlags;
      statString := statString + [0];
      statString := statString + g.mapWidth;
      statString := statString + g.mapHeight;
      statString := statString + g.mapCRC;
      statString := statString + (g.mapPath + [0]);
      statString := statString + (hostName + [0]);
      statString := statString + [0];
      statString := StatString.EncodeStatString(statString);

      packet := BuildPrefix(g);
      packet := packet + U32Bytes(g.hostCounter);
      packet := packet + U32Bytes(g.entryKey);
      packet := packet + (g.gameName + [0]);
      packet := packet + [0];
      packet := packet + statString;
      packet := packet + [0];
      var trailer := BuildTrailer(g);
      packet := packet + trailer;
      packet := WithLength(packet);
    }
  }

  lemma NotEmpty(g: Announcement)
    requires Buildable(g)
    ensures GameInfoPacket(g) != []
  {
  }

  method BuildPrefix(g: Announcement) returns (packet: seq<byte>)
    ensures packet == Prefix(g)
  {
    packet := [W3GS_HEADER_CONSTANT];
    packet := packet + [W3GS_GAMEINFO];
    packet := packet + [0];
    packet := packet + [0];
    if g.tft {
      packet := packet + PRODUCT_ID_TFT;
    } else {
      packet := packet + PRODUCT_ID_ROC;
    }
    packet := packet + [g.war3Version, 0, 0, 0];
  }

  method BuildTrailer(g: Announcement) returns (packet: seq<byte>)
    requires Buildable(g)
    ensures packet == Trailer(g)
  {
    packet := U32Bytes(g.slotsTotal);
    packet := packet + g.mapGameType;
    packet := packet + UNKNOWN2;
    packet := packet + U32Bytes(g.slotsOpen);
    packet := packet + U32Bytes(g.upTime);
    packet := packet + U16Bytes(g.port);
  }

  /** AssignLength works in place on the packet. */
  method WithLength(packet: seq<byte>) returns (stamped: seq<byte>)
    ensures stamped == Stamp(packet)
  {
    hide Stamp;
    var content := new byte[|packet|](i requires 0 <= i < |packet| => packet[i]);
    assert content[..] == packet;
    var ok := AssignLength(content);
    stamped := content[..];
  }

  // ----- the server -----

  datatype Parsed = Parsed(hostCounter: uint32, gameName: seq<byte>, statString: seq<byte>, end: nat)

  /** What the server reads out of an announcement. */
  function Parse(data: seq<byte>): Parsed
    requires |data| >= 20
  {
    var name := CStringAt(data, 20);
    var stat := CStringAt(data, 22 + |name|);
    Parsed(U32At(data, 12), name, stat, 23 + |name| + |stat| + 22)
  }

  /** Bytes behind the computed end mean a saved game with a list of players. */
  method ParseGameInfo(data: seq<byte>) returns (p: Parsed, savedGame: bool)
    requires |data| >= 20
    ensures p == Parse(data) && savedGame == (|data| > p.end)
  {
    hide CStringAt;
    var hostCounter := U32At(data[12..16], 0);
    var name := ExtractCString(data, 20);
    var stat := ExtractCString(data, 22 + |name|);
    var i := 23 + |name| + |stat| + 22;
    p := Parsed(hostCounter, name, stat, i);
    savedGame := |data| > i;
  }

  // ----- the two together -----

  /** Writing the size changes nothing behind byte 4. */
  lemma StampKeepsTail(header: seq<byte>, rest: seq<byte>)
    requires |header| >= 4
    ensures var p := Stamp(header + rest);
      |p| == |header| + |rest| && p == p[..|header|] + rest && p[4..|header|] == header[4..]
  {
    var p := Stamp(header + rest);
    assert p == p[..|header|] + p[|header|..];
    assert p[|header|..] == rest;
  }

  lemma LayoutIs(header: seq<byte>, name: seq<byte>, stat: seq<byte>, trailer: seq<byte>)
    ensures Layout(header, name, stat, trailer) == header + Layout([], name, stat, trailer)
    ensures |Layout(header, name, stat, trailer)| == |header| + |name| + |stat| + |trailer| + 3
  {
    assert Layout(header, name, stat, trailer) == header + Layout([], name, stat, trailer);
  }

  lemma StampedLayout(header: seq<byte>, name: seq<byte>, stat: seq<byte>, trailer: seq<byte>)
    requires |header| == 20
    ensures var p := Stamp(Layout(header, name, stat, trailer));
      && |p| == 23 + |name| + |stat| + |trailer| && p == Layout(p[..20], name, stat, trailer)
      && p[4..20] == header[4..]
  {
    hide Layout, Stamp;
    LayoutIs(header, name, stat, trailer);
    StampKeepsTail(header, Layout([], name, stat, trailer));
    LayoutIs(Stamp(Layout(header, name, stat, trailer))[..20], name, stat, trailer);
  }

  lemma NameExact(header: seq<byte>, name: seq<byte>, stat: seq<byte>, trailer: seq<byte>)
    requires |header| == 20
    ensures CStringAt(Layout(header, name, stat, trailer), 20) == name <==> 0 !in name
  {
    hide CStringAt;
    var rest := [0] + stat + [0] + trailer;
    assert Layout(header, name, stat, trailer) == header + name + [0] + rest;
    CStringRoundTrip(header, name, rest);
  }

  lemma StatExact(header: seq<byte>, name: seq<byte>, stat: seq<byte>, trailer: seq<byte>)
    requires |header| == 20
    ensures CStringAt(Layout(header, name, stat, trailer), 22 + |name|) == stat <==> 0 !in stat
  {
    hide CStringAt;
    var before := header + (name + [0]) + [0];
    assert |before| == 22 + |name|;
    CStringRoundTrip(before, stat, trailer);
  }

  /** With a zero inside the name the parse stops short of the packet's end. */
  lemma ZeroEndsEarly(p: seq<byte>, name: seq<byte>, stat: seq<byte>)
    requires |p| == 45 + |name| + |stat| && p[20..20 + |name|] == name && p[20 + |name|] == 0 && p[21 + |name|] == 0
    requires 0 in name
    ensures Parse(p).end < |p|
  {
    hide U32At;
    var k := |CStringAt(p, 20)|;
    CStringStops(p, 20, 20 + |name|);
    var z := FirstZero(name);
    CStringStops(p, 20, 20 + z);
    if 22 + k <= 20 + |name| {
      CStringStops(p, 22 + k, 20 + |name|);
    } else {
      CStringStops(p, 22 + k, 21 + |name|);
    }
  }

  lemma FirstZero(s: seq<byte>) returns (z: nat)
    requires 0 in s
    ensures z < |s| && s[z] == 0
  {
    z :| z < |s| && s[z] == 0;
  }

  lemma CStringStops(p: seq<byte>, start: nat, zero: nat)
    requires start <= zero < |p| && p[zero] == 0
    ensures |CStringAt(p, start)| <= zero - start
  {
    hide UpToZero;
    UpToZeroHasNoZero(p[start..]);
    var s := CStringAt(p, start);
    assert forall i | 0 <= i < |s| :: s[i] != 0 && s[i] == p[start..][i] == p[start + i];
  }

  /** For every announcement the bot builds: the server reads back the host
      counter; it reads back the name exactly when the name holds no zero, and
      then also the encoded map description, which decodes to the bot's; and its
      computed end is the packet's end, so that the packet is not taken for a
      saved game, exactly when the name holds no zero. */
  lemma AnnouncementRecovered(g: Announcement)
    requires Buildable(g)
    ensures var data := GameInfoPacket(g);
      && |data| >= 20
      && Parse(data).hostCounter == g.hostCounter
      && (Parse(data).gameName == g.gameName <==> 0 !in g.gameName)
      && (Parse(data).end == |data| <==> 0 !in g.gameName)
      && (|data| > Parse(data).end <==> 0 in g.gameName)
      && (0 !in g.gameName ==> Parse(data).statString == StatString.Encode(MapData(g))
                               && StatString.Decode(Parse(data).statString) == MapData(g))
  {
    hide Stamp, Layout, CStringAt, MapData, Trailer, Header, U32At, Parse, StatString.Encode, StatString.Decode;
    var stat := StatString.Encode(MapData(g));
    StampedLayout(Header(g), g.gameName, stat, Trailer(g));
    HostCounterRecovered(g, GameInfoPacket(g));
    StatString.RoundTrip(MapData(g));
    StatString.EncodedOdd(MapData(g));
    LayoutParsed(GameInfoPacket(g), g.gameName, stat, Trailer(g));
  }

  lemma HostCounterRecovered(g: Announcement, p: seq<byte>)
    requires |p| >= 20 && p[4..20] == Header(g)[4..]
    ensures U32At(p, 12) == g.hostCounter
  {
    hide Prefix;
    U32RoundTrip(Prefix(g), g.hostCounter, U32Bytes(g.entryKey));
    SameU32(p, Header(g));
  }

  lemma SameU32(p: seq<byte>, q: seq<byte>)
    requires |p| >= 20 == |q| && p[4..20] == q[4..]
    ensures U32At(p, 12) == U32At(q, 12)
  {
    forall k: nat | 12 <= k < 16
      ensures p[k] == q[k]
    {
      assert p[4..20][k - 4] == p[k] && q[4..][k - 4] == q[k];
    }
  }

  lemma LayoutParsed(p: seq<byte>, name: seq<byte>, stat: seq<byte>, trailer: seq<byte>)
    requires |p| >= 20 && p == Layout(p[..20], name, stat, trailer) && |trailer| == 22 && 0 !in stat
    requires |p| == 45 + |name| + |stat|
    ensures var r := Parse(p);
      && r.hostCounter == U32At(p, 12)
      && (r.gameName == name <==> 0 !in name)
      && (0 !in name ==> r.statString == stat && r.end == |p|)
      && (0 in name ==> r.end < |p|)
  {
    hide Layout, CStringAt, U32At;
    NameExact(p[..20], name, stat, trailer);
    StatExact(p[..20], name, stat, trailer);
    if 0 in name {
      NameBytes(p, name, stat, trailer);
      ZeroEndsEarly(p, name, stat);
    }
  }

  lemma NameBytes(p: seq<byte>, name: seq<byte>, stat: seq<byte>, trailer: seq<byte>)
    requires |p| >= 20 && p == Layout(p[..20], name, stat, trailer) && |p| >= 22 + |name|
    ensures p[20..20 + |name|] == name && p[20 + |name|] == 0 && p[21 + |name|] == 0
  {
  }

  /** An announcement that fits the length field is cut out of the bot's stream whole. */
  lemma AnnouncementIsFrame(g: Announcement)
    requires Buildable(g)
    ensures var data := GameInfoPacket(g);
      && (IsFrame(BOT_HEADERS, data) <==> |data| <= 65535)
      && (|data| <= 65535 ==>
        Extract(BOT_HEADERS, data) == Extraction([ToPacket(data)], [], Waiting) && BotsAccept(data))
  {
    hide Extract, U16At, Stamp, StatString.Encode, Trailer, MapData;
    var p := Layout(Header(g), g.gameName, StatString.Encode(MapData(g)), Trailer(g));
    assert p[0] == W3GS_HEADER_CONSTANT;
    StampMakesFrame(BOT_HEADERS, p);
    if |p| <= 65535 {
      ExtractOne(BOT_HEADERS, Stamp(p));
    }
  }

  // ----- where the fields stand -----

  lemma TrailerFields(g: Announcement)
    requires Buildable(g)
    ensures var t := Trailer(g);
      && U32At(t, 0) == g.slotsTotal && t[4..8] == g.mapGameType && t[8..12] == [1, 0, 0, 0]
      && U32At(t, 12) == g.slotsOpen && U32At(t, 16) == g.upTime && U16At(t, 20) == g.port
  {
    hide U32At, U16At, U32Bytes, U16Bytes;
    var t := Trailer(g);
    var total, open, up, port := U32Bytes(g.slotsTotal), U32Bytes(g.slotsOpen), U32Bytes(g.upTime), U16Bytes(g.port);
    Sizes(g);
    var front := total + g.mapGameType + [1, 0, 0, 0];
    assert t == [] + total + (g.mapGameType + [1, 0, 0, 0] + open + up + port);
    U32RoundTrip([], g.slotsTotal, g.mapGameType + [1, 0, 0, 0] + open + up + port);
    assert t == front + open + (up + port);
    U32RoundTrip(front, g.slotsOpen, up + port);
    assert t == (front + open) + up + port;
    U32RoundTrip(front + open, g.upTime, port);
    assert t == (front + open + up) + port + [];
    U16RoundTrip(front + open + up, g.port, []);
  }

  lemma Sizes(g: Announcement)
    ensures |U32Bytes(g.slotsTotal)| == |U32Bytes(g.slotsOpen)| == |U32Bytes(g.upTime)| == 4 && |U16Bytes(g.port)| == 2
    ensures |U32Bytes(g.hostCounter)| == |U32Bytes(g.entryKey)| == 4
  {
  }

  lemma HeaderFields(g: Announcement)
    ensures var h := Header(g);
      && h[0] == 0xF7 && h[1] == 0x30 && h[4..8] == (if g.tft then [80, 88, 51, 87] else [51, 82, 65, 87])
      && h[8..12] == [g.war3Version, 0, 0, 0] && U32At(h, 12) == g.hostCounter && U32At(h, 16) == g.entryKey
  {
    hide U32At, U32Bytes;
    Sizes(g);
    U32RoundTrip(Prefix(g), g.hostCounter, U32Bytes(g.entryKey));
    U32RoundTrip(Prefix(g) + U32Bytes(g.hostCounter), g.entryKey, []);
    assert Header(g) == (Prefix(g) + U32Bytes(g.hostCounter)) + U32Bytes(g.entryKey) + [];
  }

  /** The same four bytes somewhere else. */
  lemma FieldMoved(a: seq<byte>, b: seq<byte>, offset: nat, i: nat)
    requires offset + |b| <= |a| && a[offset..offset + |b|] == b
    ensures i + 4 <= |b| ==> U32At(a, offset + i) == U32At(b, i)
    ensures i + 2 <= |b| ==> U16At(a, offset + i) == U16At(b, i)
  {
    var c := a[offset..offset + |b|];
    assert forall k | 0 <= k < |c| :: c[k] == a[offset + k];
  }

  /** Header byte, kind, size, product, version, counter and key stand in front of the
      name; the slots, the kind of map, the up time and the port behind the map. */
  lemma AnnouncementFields(g: Announcement)
    requires Buildable(g) && |GameInfoPacket(g)| <= 65535
    ensures var p := GameInfoPacket(g);
      var n, k := |p|, |g.gameName|;
      && n >= 45 + k && p[0] == 0xF7 && p[1] == 0x30 && U16At(p, 2) == n
      && p[4..8] == (if g.tft then [80, 88, 51, 87] else [51, 82, 65, 87]) && p[8..12] == [g.war3Version, 0, 0, 0]
      && U32At(p, 12) == g.hostCounter && U32At(p, 16) == g.entryKey
      && p[20..20 + k] == g.gameName && p[20 + k] == p[21 + k] == 0
      && p[22 + k..n - 23] == StatString.Encode(MapData(g)) && p[n - 23] == 0
      && U32At(p, n - 22) == g.slotsTotal && p[n - 18..n - 14] == g.mapGameType && p[n - 14..n - 10] == [1, 0, 0, 0]
      && U32At(p, n - 10) == g.slotsOpen && U32At(p, n - 6) == g.upTime && U16At(p, n - 2) == g.port
  {
    hide Layout, MapData, Trailer, Header, Stamp, U32At, U16At, StatString.Encode;
    var p, stat := GameInfoPacket(g), StatString.Encode(MapData(g));
    StampedLayout(Header(g), g.gameName, stat, Trailer(g));
    LayoutIs(Header(g), g.gameName, stat, Trailer(g));
    StampedSize(Header(g), Layout([], g.gameName, stat, Trailer(g)));
    LayoutParts(p, g.gameName, stat, Trailer(g));
    HeaderFields(g);
    TrailerFields(g);
    HeaderMoved(p, Header(g));
    TrailerMoved(p, Trailer(g));
  }

  lemma HeaderMoved(p: seq<byte>, h: seq<byte>)
    requires |h| == 20 <= |p| && p[4..20] == h[4..]
    ensures p[4..8] == h[4..8] && p[8..12] == h[8..12]
    ensures U32At(p, 12) == U32At(h, 12) && U32At(p, 16) == U32At(h, 16)
  {
    hide U32At;
    FieldMoved(p, h[4..], 4, 8);
    FieldMoved(h, h[4..], 4, 8);
    FieldMoved(p, h[4..], 4, 12);
    FieldMoved(h, h[4..], 4, 12);
    assert p[4..8] == p[4..20][..4] == h[4..][..4] == h[4..8];
    assert p[8..12] == p[4..20][4..8] == h[4..][4..8] == h[8..12];
  }

  lemma TrailerMoved(p: seq<byte>, t: seq<byte>)
    requires |t| == 22 <= |p| && p[|p| - 22..] == t
    ensures var n := |p|;
      && U32At(p, n - 22) == U32At(t, 0) && p[n - 18..n - 14] == t[4..8] && p[n - 14..n - 10] == t[8..12]
      && U32At(p, n - 10) == U32At(t, 12) && U32At(p, n - 6) == U32At(t, 16) && U16At(p, n - 2) == U16At(t, 20)
  {
    hide U32At, U16At;
    var n := |p|;
    assert p[n - 22..n] == t;
    FieldMoved(p, t, n - 22, 0);
    FieldMoved(p, t, n - 22, 12);
    FieldMoved(p, t, n - 22, 16);
    FieldMoved(p, t, n - 22, 20);
    assert p[n - 22..][4..8] == p[n - 18..n - 14] && p[n - 22..][8..12] == p[n - 14..n - 10];
  }

  lemma StampedSize(header: seq<byte>, rest: seq<byte>)
    requires |header| == 20 && |header + rest| <= 65535
    ensures var p := Stamp(header + rest);
      p[0] == header[0] && p[1] == header[1] && U16At(p, 2) == |header + rest| == |p|
  {
  }

  lemma LayoutParts(p: seq<byte>, name: seq<byte>, stat: seq<byte>, trailer: seq<byte>)
    requires |p| >= 20 && p == Layout(p[..20], name, stat, trailer) && |trailer| == 22
    ensures var n, k := |p|, |name|;
      && n == 45 + k + |stat| && p[20..20 + k] == name && p[20 + k] == p[21 + k] == 0
      && p[22 + k..n - 23] == stat && p[n - 23] == 0 && p[n - 22..] == trailer
  {
  }

  /** The map description: flags, a zero, width, height and check sum, then the path and
      the host with a zero behind each, and one more zero. */
  lemma MapFields(g: Announcement)
    requires Buildable(g)
    ensures var m := MapData(g);
      var host := if g.hostName == [] then [98, 114, 116, 71, 72, 111, 115, 116] else g.hostName;
      && |m| >= 13 && m[..4] == g.mapFlags && m[4] == 0 && m[5..7] == g.mapWidth && m[7..9] == g.mapHeight
      && m[9..13] == g.mapCRC && m[13..] == g.mapPath + [0] + host + [0, 0]
  {
    var host := HostName(g);
    var front := g.mapFlags + [0] + g.mapWidth + g.mapHeight + g.mapCRC;
    var back := (g.mapPath + [0]) + (host + [0]) + [0];
    MapFront(g);
    assert MapData(g) == front + back;
    assert back == g.mapPath + [0] + host + [0, 0];
    assert forall i, j | 0 <= i <= j <= 13 :: (front + back)[i..j] == front[i..j];
  }

  lemma MapFront(g: Announcement)
    requires Buildable(g)
    ensures var m := g.mapFlags + [0] + g.mapWidth + g.mapHeight + g.mapCRC;
      && |m| == 13 && m[..4] == g.mapFlags && m[4] == 0 && m[5..7] == g.mapWidth && m[7..9] == g.mapHeight
      && m[9..13] == g.mapCRC
  {
  }
}
