/** The GProxy++ control packets of ghost/gpsprotocol.cpp. */
module GpsProtocol {
  import opened Bytes
  import opened Framing

  const GPS_INIT: byte := 1
  const GPS_RECONNECT: byte := 2
  const GPS_ACK: byte := 3

  /** SEND_GPSS_ACK and SEND_GPSC_ACK build the same packet. */
  function AckPacket(lastPacket: uint32): seq<byte> {
    Stamp([GPS_HEADER_CONSTANT, GPS_ACK, 0, 0] + U32Bytes(lastPacket))
  }

  /** SEND_GPSS_RECONNECT. */
  function ReconnectPacket(lastPacket: uint32): seq<byte> {
    Stamp([GPS_HEADER_CONSTANT, GPS_RECONNECT, 0, 0] + U32Bytes(lastPacket))
  }

  /** SEND_GPSS_INIT. */
  function InitPacket(reconnectPort: uint16, pid: byte, reconnectKey: uint32, numEmptyActions: byte): seq<byte> {
    Stamp([GPS_HEADER_CONSTANT, GPS_INIT, 0, 0] + U16Bytes(reconnectPort) + [pid] + U32Bytes(reconnectKey)
      + [numEmptyActions])
  }

  /** The test ProcessPackets makes before it trims the buffer. */
  predicate IsAck(p: CommandPacket) {
    p.packetType == GPS_HEADER_CONSTANT && p.id == GPS_ACK && |p.data| == 8
  }

  predicate IsInit(p: CommandPacket) {
    p.packetType == GPS_HEADER_CONSTANT && p.id == GPS_INIT
  }

  /** What the two tests look for in the bytes of a packet. */
  lemma KindsAreBytes(p: seq<byte>)
    requires |p| >= 4
    ensures IsAck(ToPacket(p)) <==> p[0] == 248 && p[1] == 3 && |p| == 8
    ensures IsInit(ToPacket(p)) <==> p[0] == 248 && p[1] == 1
  {
  }

  /** Where a client finds the fields of the answer to its GPS_INIT. */
  predicate InitFields(p: seq<byte>, reconnectPort: uint16, pid: byte, reconnectKey: uint32, numEmptyActions: byte) {
    && |p| == 12 && p[..4] == [248, 1, 12, 0]
    && U16At(p, 4) == reconnectPort && p[6] == pid && U32At(p, 7) == reconnectKey && p[11] == numEmptyActions
  }

  lemma InitLayout(reconnectPort: uint16, pid: byte, reconnectKey: uint32, numEmptyActions: byte)
    ensures InitFields(InitPacket(reconnectPort, pid, reconnectKey, numEmptyActions), reconnectPort, pid, reconnectKey,
                       numEmptyActions)
  {
    var p := InitPacket(reconnectPort, pid, reconnectKey, numEmptyActions);
    var head: seq<byte> := [248, 1, 12, 0];
    var port, key := U16Bytes(reconnectPort), U32Bytes(reconnectKey);
    U16RoundTrip(head, reconnectPort, [pid] + key + [numEmptyActions]);
    U32RoundTrip(head + port + [pid], reconnectKey, [numEmptyActions]);
    assert p == head + port + ([pid] + key + [numEmptyActions]);
    assert p == (head + port + [pid]) + key + [numEmptyActions];
  }

  /** An ACK survives the trip: it is one frame, recognised as an ACK, carrying its count. */
  lemma AckRoundTrip(n: uint32)
    ensures IsFrame(PLAYER_HEADERS, AckPacket(n)) && AckPacket(n)[..4] == [248, 3, 8, 0]
    ensures IsAck(ToPacket(AckPacket(n))) && U32At(AckPacket(n), 4) == n
  {
    StampedCount(GPS_ACK, n);
  }

  /** The same for the reconnect answer, which is never taken for an ACK. */
  lemma ReconnectRoundTrip(n: uint32)
    ensures IsFrame(PLAYER_HEADERS, ReconnectPacket(n)) && |ReconnectPacket(n)| == 8
    ensures ReconnectPacket(n)[..4] == [248, 2, 8, 0]
    ensures U32At(ReconnectPacket(n), 4) == n
    ensures !IsAck(ToPacket(ReconnectPacket(n)))
  {
    StampedCount(GPS_RECONNECT, n);
  }

  lemma StampedCount(id: byte, n: uint32)
    ensures var p := Stamp([GPS_HEADER_CONSTANT, id, 0, 0] + U32Bytes(n));
      |p| == 8 && p[0] == GPS_HEADER_CONSTANT && p[1] == id && U16At(p, 2) == 8 && U32At(p, 4) == n
  {
    var head: seq<byte> := [GPS_HEADER_CONSTANT, id, 8, 0];
    U32RoundTrip(head, n, []);
    assert Stamp([GPS_HEADER_CONSTANT, id, 0, 0] + U32Bytes(n)) == head + U32Bytes(n) + [];
  }
}
