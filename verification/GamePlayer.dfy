/** The packet counters and the GProxy++ replay buffer of ghost/gameplayer.cpp. */
module GamePlayer {
  import opened Bytes
  import opened Framing
  import opened GpsProtocol
  import opened Sequences
  import opened Sockets

  // ----- specification of the buffer -----

  /** The buffer after the peer reports lastPacket received packets, in the
      source's 32-bit arithmetic. */
  function Trim(sent: uint32, buffer: seq<seq<byte>>, lastPacket: uint32): seq<seq<byte>> {
    var alreadyUnqueued := ToUInt32(sent - |buffer|);
    if lastPacket > alreadyUnqueued then buffer[Min(lastPacket - alreadyUnqueued, |buffer|)..] else buffer
  }

  /** The buffer after all the ACKs among ps, in order. */
  function AckAll(sent: uint32, buffer: seq<seq<byte>>, ps: seq<CommandPacket>): seq<seq<byte>> {
    if ps == [] then buffer
    else AckAll(sent, if IsAck(ps[0]) then Trim(sent, buffer, U32At(ps[0].data, 4)) else buffer, ps[1..])
  }

  /** The game packets among ps. */
  function GamePackets(ps: seq<CommandPacket>): seq<seq<byte>> {
    if ps == [] then []
    else (if ps[0].packetType == W3GS_HEADER_CONSTANT then [ps[0].data] else []) + GamePackets(ps[1..])
  }

  lemma {:induction false} GamePacketsConcat(a: seq<CommandPacket>, b: seq<CommandPacket>)
    ensures GamePackets(a + b) == GamePackets(a) + GamePackets(b)
  {
    hide GamePackets;
    GamePacketsFront(a);
    GamePacketsFront(a + b);
    if a == [] {
      NothingBefore(b);
      NothingBefore(GamePackets(b));
    } else {
      Front(a, b);
      GamePacketsConcat(a[1..], b);
      ConcatAssociative(if a[0].packetType == W3GS_HEADER_CONSTANT then [a[0].data] else [], GamePackets(a[1..]),
                        GamePackets(b));
    }
  }

  lemma GamePacketsFront(a: seq<CommandPacket>)
    ensures GamePackets(a) == if a == [] then []
      else (if a[0].packetType == W3GS_HEADER_CONSTANT then [a[0].data] else []) + GamePackets(a[1..])
  {
  }

  /** The receive counter after ps have been queued. */
  function Counted(received: uint32, ps: seq<CommandPacket>): (r: uint32)
    ensures ps == [] ==> r == received
  {
    ToUInt32(received + |GamePackets(ps)|)
  }

  lemma CountedStep(received: uint32, p: CommandPacket, tail: seq<CommandPacket>)
    ensures Counted(received, [p] + tail)
      == Counted(if p.packetType == W3GS_HEADER_CONSTANT then ToUInt32(received + 1) else received, tail)
  {
  }

  predicate SeesInit(ps: seq<CommandPacket>) {
    ps != [] && (IsInit(ps[0]) || SeesInit(ps[1..]))
  }

  /** The bytes written in answer to the GPS_INIT packets among ps. */
  function InitAnswers(answer: seq<byte>, ps: seq<CommandPacket>): seq<byte> {
    if ps == [] then [] else (if IsInit(ps[0]) then answer else []) + InitAnswers(answer, ps[1..])
  }

  /** What dispatching the first of the queued packets adds. */
  lemma DispatchFront(sent: uint32, buffer: seq<seq<byte>>, ps: seq<CommandPacket>, answer: seq<byte>)
    requires ps != []
    ensures GamePackets(ps)
      == if ps[0].packetType == W3GS_HEADER_CONSTANT then [ps[0].data] + GamePackets(ps[1..]) else GamePackets(ps[1..])
    ensures AckAll(sent, buffer, ps)
      == AckAll(sent, if IsAck(ps[0]) then Trim(sent, buffer, U32At(ps[0].data, 4)) else buffer, ps[1..])
    ensures SeesInit(ps) <==> IsInit(ps[0]) || SeesInit(ps[1..])
    ensures InitAnswers(answer, ps) == if IsInit(ps[0]) then answer + InitAnswers(answer, ps[1..])
      else InitAnswers(answer, ps[1..])
  {
    hide Trim, U32At;
  }

  lemma DispatchNothing(sent: uint32, buffer: seq<seq<byte>>, answer: seq<byte>)
    ensures GamePackets([]) == [] && AckAll(sent, buffer, []) == buffer && !SeesInit([])
      && InitAnswers(answer, []) == []
  {
  }

  // ----- before the player has joined -----

  class PotentialPlayer {
    var socket: TcpSocket?
    var packets: seq<CommandPacket>
    var error: bool

    constructor (socket: TcpSocket)
      ensures this.socket == socket && packets == [] && !error
    {
      this.socket, packets, error := socket, [], false;
    }

    /** Move every complete packet from the receive buffer to the queue. */
    method ExtractPackets()
      modifies this, socket
      ensures socket == old(socket)
      ensures socket == null ==> packets == old(packets) && error == old(error)
      ensures socket != null ==>
        var x := Extract(PLAYER_HEADERS, old(socket.recvBuffer));
        && packets == old(packets) + x.packets
        && socket.recvBuffer == x.rest && socket.sendBuffer == old(socket.sendBuffer)
        && error == (old(error) || x.outcome != Waiting)
    {
      if socket == null {
        return;
      }
      var bytes := socket.recvBuffer;
      ghost var x := Extract(PLAYER_HEADERS, bytes);
      assert packets + x.packets == old(packets) + x.packets;
      while |bytes| >= 4
        invariant socket == old(socket) && socket != null && error == old(error)
        invariant socket.recvBuffer == bytes && socket.sendBuffer == old(socket.sendBuffer)
        invariant packets + Extract(PLAYER_HEADERS, bytes).packets == old(packets) + x.packets
        invariant Extract(PLAYER_HEADERS, bytes).rest == x.rest
        invariant Extract(PLAYER_HEADERS, bytes).outcome == x.outcome
        decreases |bytes|
      {
        if bytes[0] == W3GS_HEADER_CONSTANT || bytes[0] == GPS_HEADER_CONSTANT {
          var length := U16At(bytes, 2);
          if length >= 4 {
            if |bytes| >= length {
              ConcatAssociative(packets, [ToPacket(bytes[..length])], Extract(PLAYER_HEADERS, bytes[length..]).packets);
              packets := packets + [CommandPacket(bytes[0], bytes[1], bytes[..length])];
              socket.recvBuffer := socket.recvBuffer[length..];
              bytes := bytes[length..];
            } else {
              return;
            }
          } else {
            error := true;
            return;
          }
        } else {
          error := true;
          return;
        }
      }
    }
  }

  // ----- the joined player -----

  class GamePlayer {
    const pid: byte
    const reconnectKey: uint32
    var socket: TcpSocket?
    var packets: seq<CommandPacket>
    var error: bool
    var totalPacketsSent: uint32
    var totalPacketsReceived: uint32
    var gproxy: bool
    var gproxyBuffer: seq<seq<byte>>

    /** Takes over the socket of a potential player. The join request was counted
        by nobody else, so the receive counter starts at one; packets the
        potential player had queued behind it are discarded. */
    constructor (potential: PotentialPlayer, pid: byte, reconnectKey: uint32)
      ensures socket == potential.socket && packets == [] && !error
      ensures totalPacketsSent == 0 && totalPacketsReceived == 1
      ensures !gproxy && gproxyBuffer == []
      ensures this.pid == pid && this.reconnectKey == reconnectKey
    {
      this.pid, this.reconnectKey := pid, reconnectKey;
      socket, packets, error := potential.socket, [], false;
      totalPacketsSent, totalPacketsReceived := 0, 1;
      gproxy, gproxyBuffer := false, [];
    }

    /** As for the potential player, and game packets are counted when queued. */
    method ExtractPackets()
      modifies this`packets, this`error, this`totalPacketsReceived, socket
      ensures socket == null ==>
        packets == old(packets) && error == old(error) && totalPacketsReceived == old(totalPacketsReceived)
      ensures socket != null ==>
        var x := Extract(PLAYER_HEADERS, old(socket.recvBuffer));
        && packets == old(packets) + x.packets
        && socket.recvBuffer == x.rest && socket.sendBuffer == old(socket.sendBuffer)
        && error == (old(error) || x.outcome != Waiting)
        && totalPacketsReceived == Counted(old(totalPacketsReceived), x.packets)
    {
      hide ToUInt32, Counted;
      if socket == null {
        return;
      }
      var bytes := socket.recvBuffer;
      ghost var x := Extract(PLAYER_HEADERS, bytes);
      while |bytes| >= 4
        invariant error == old(error)
        invariant socket.recvBuffer == bytes && socket.sendBuffer == old(socket.sendBuffer)
        invariant packets + Extract(PLAYER_HEADERS, bytes).packets == old(packets) + x.packets
        invariant Extract(PLAYER_HEADERS, bytes).rest == x.rest
        invariant Extract(PLAYER_HEADERS, bytes).outcome == x.outcome
        invariant Counted(totalPacketsReceived, Extract(PLAYER_HEADERS, bytes).packets)
          == Counted(old(totalPacketsReceived), x.packets)
        decreases |bytes|
      {
        if bytes[0] == W3GS_HEADER_CONSTANT || bytes[0] == GPS_HEADER_CONSTANT {
          var length := U16At(bytes, 2);
          if length >= 4 {
            if |bytes| >= length {
              ghost var tail := Extract(PLAYER_HEADERS, bytes[length..]).packets;
              ConcatAssociative(packets, [ToPacket(bytes[..length])], tail);
              CountedStep(totalPacketsReceived, ToPacket(bytes[..length]), tail);
              packets := packets + [CommandPacket(bytes[0], bytes[1], bytes[..length])];
              if bytes[0] == W3GS_HEADER_CONSTANT {
                totalPacketsReceived := ToUInt32(totalPacketsReceived + 1);
              }
              socket.recvBuffer := socket.recvBuffer[length..];
              bytes := bytes[length..];
            } else {
              return;
            }
          } else {
            error := true;
            return;
          }
        } else {
          error := true;
          return;
        }
      }
    }

    /** Everything the queue holds is taken off it: game packets are handed to the
        game, ACKs trim the replay buffer, a GPS_INIT turns GProxy++ on and is
        answered. handled lists what was dispatched, in order. */
    method ProcessPackets(reconnect: bool, reconnectPort: uint16, numEmptyActions: byte)
      returns (handled: seq<seq<byte>>)
      modifies this`packets, this`gproxy, this`gproxyBuffer, socket
      ensures socket == null ==>
        packets == old(packets) && gproxy == old(gproxy) && gproxyBuffer == old(gproxyBuffer) && handled == []
      ensures socket != null ==>
        && packets == []
        && handled == GamePackets(old(packets))
        && gproxyBuffer == AckAll(totalPacketsSent, old(gproxyBuffer), old(packets))
        && gproxy == (old(gproxy) || (reconnect && SeesInit(old(packets))))
        && socket.recvBuffer == old(socket.recvBuffer)
        && socket.sendBuffer == old(socket.sendBuffer)
          + if reconnect then InitAnswers(InitPacket(reconnectPort, pid, reconnectKey, numEmptyActions), old(packets))
            else []
      ensures InitFields(InitPacket(reconnectPort, pid, reconnectKey, numEmptyActions), reconnectPort, pid,
                         reconnectKey, numEmptyActions)
    {
      hide Trim, U32At, InitPacket, InitFields, GamePackets, AckAll, SeesInit, InitAnswers;
      InitLayout(reconnectPort, pid, reconnectKey, numEmptyActions);
      handled := [];
      if socket == null {
        return;
      }
      ghost var all := packets;
      ghost var answer := InitPacket(reconnectPort, pid, reconnectKey, numEmptyActions);
      while packets != []
        invariant socket.recvBuffer == old(socket.recvBuffer)
        invariant handled + GamePackets(packets) == GamePackets(all)
        invariant AckAll(totalPacketsSent, gproxyBuffer, packets) == AckAll(totalPacketsSent, old(gproxyBuffer), all)
        invariant gproxy || (reconnect && SeesInit(packets)) <==> old(gproxy) || (reconnect && SeesInit(all))
        invariant socket.sendBuffer + (if reconnect then InitAnswers(answer, packets) else [])
          == old(socket.sendBuffer) + if reconnect then InitAnswers(answer, all) else []
        decreases |packets|
      {
        DispatchFront(totalPacketsSent, gproxyBuffer, packets, answer);
        var packet := packets[0];
        packets := packets[1..];
        ConcatAssociative(handled, [packet.data], GamePackets(packets));
        ConcatAssociative(socket.sendBuffer, answer, InitAnswers(answer, packets));
        if packet.packetType == W3GS_HEADER_CONSTANT {
          handled := handled + [packet.data];
        } else if packet.packetType == GPS_HEADER_CONSTANT {
          if packet.id == GPS_INIT {
            if reconnect {
              gproxy := true;
              socket.PutBytes(InitPacket(reconnectPort, pid, reconnectKey, numEmptyActions));
            }
          } else if packet.id == GPS_ACK && |packet.data| == 8 {
            Unqueue(U32At(packet.data, 4));
          }
        }
      }
      DispatchNothing(totalPacketsSent, gproxyBuffer, answer);
    }

    /** The receiving half of Update: whatever has arrived is extracted, then processed. */
    method Receive(reconnect: bool, reconnectPort: uint16, numEmptyActions: byte)
      returns (handled: seq<seq<byte>>)
      requires socket != null && packets == []
      modifies this`packets, this`error, this`totalPacketsReceived, this`gproxy, this`gproxyBuffer, socket
      ensures var x := Extract(PLAYER_HEADERS, old(socket.recvBuffer));
        && packets == [] && socket.recvBuffer == x.rest
        && error == (old(error) || x.outcome != Waiting)
        && gproxy == (old(gproxy) || (reconnect && SeesInit(x.packets)))
        && handled == GamePackets(x.packets)
        && totalPacketsReceived == Counted(old(totalPacketsReceived), x.packets)
        && gproxyBuffer == AckAll(totalPacketsSent, old(gproxyBuffer), x.packets)
        && socket.sendBuffer == old(socket.sendBuffer)
          + if reconnect then InitAnswers(InitPacket(reconnectPort, pid, reconnectKey, numEmptyActions), x.packets)
            else []
    {
      hide *;
      ExtractPackets();
      assert packets == Extract(PLAYER_HEADERS, old(socket.recvBuffer)).packets;
      handled := ProcessPackets(reconnect, reconnectPort, numEmptyActions);
    }

    /** The unqueueing loop, which ProcessPackets and EventGProxyReconnect share. */
    method Unqueue(lastPacket: uint32)
      modifies this`gproxyBuffer
      ensures gproxyBuffer == Trim(totalPacketsSent, old(gproxyBuffer), lastPacket)
    {
      hide ToUInt32;
      var packetsAlreadyUnqueued := ToUInt32(totalPacketsSent - |gproxyBuffer|);
      if lastPacket > packetsAlreadyUnqueued {
        var packetsToUnqueue := lastPacket - packetsAlreadyUnqueued;
        if packetsToUnqueue > |gproxyBuffer| {
          packetsToUnqueue := |gproxyBuffer|;
        }
        ghost var total := packetsToUnqueue;
        while packetsToUnqueue > 0
          invariant 0 <= packetsToUnqueue <= total <= |old(gproxyBuffer)|
          invariant gproxyBuffer == old(gproxyBuffer)[total - packetsToUnqueue..]
        {
          gproxyBuffer := gproxyBuffer[1..];
          packetsToUnqueue := packetsToUnqueue - 1;
        }
      }
    }

    /** Every packet is counted; it is kept for replay once the client is known to
        use GProxy++ and the game is loaded; and it goes to the socket. */
    method Send(data: seq<byte>, gameLoaded: bool)
      modifies this`totalPacketsSent, this`gproxyBuffer, socket
      ensures totalPacketsSent == ToUInt32(old(totalPacketsSent) + 1)
      ensures gproxyBuffer == if gproxy && gameLoaded then old(gproxyBuffer) + [data] else old(gproxyBuffer)
      ensures socket != null ==>
        socket.sendBuffer == old(socket.sendBuffer) + data && socket.recvBuffer == old(socket.recvBuffer)
    {
      totalPacketsSent := ToUInt32(totalPacketsSent + 1);
      if gproxy && gameLoaded {
        gproxyBuffer := gproxyBuffer + [data];
      }
      if socket != null {
        socket.PutBytes(data);
      }
    }

    /** The periodic acknowledgement of Update. */
    method SendAck()
      modifies socket
      ensures gproxy && socket != null ==>
        socket.sendBuffer == old(socket.sendBuffer) + AckPacket(totalPacketsReceived)
        && socket.recvBuffer == old(socket.recvBuffer)
      ensures !gproxy && socket != null ==> unchanged(socket)
    {
      if gproxy {
        if socket != null {
          socket.PutBytes(AckPacket(totalPacketsReceived));
        }
      }
    }

    /** A new socket replaces the old one, whose unread bytes are dropped. The peer
        is told how many packets arrived here, what it confirms is unqueued, and
        the remaining buffer is replayed and kept. */
    method EventGProxyReconnect(newSocket: TcpSocket, lastPacket: uint32)
      modifies this`socket, this`gproxyBuffer, newSocket
      ensures socket == newSocket
      ensures gproxyBuffer == Trim(totalPacketsSent, old(gproxyBuffer), lastPacket)
      ensures newSocket.sendBuffer
        == old(newSocket.sendBuffer) + ReconnectPacket(totalPacketsReceived) + Flatten(gproxyBuffer)
      ensures newSocket.recvBuffer == old(newSocket.recvBuffer)
    {
      hide Trim, ReconnectPacket, ToUInt32;
      socket := newSocket;
      newSocket.PutBytes(ReconnectPacket(totalPacketsReceived));
      Unqueue(lastPacket);
      var tempBuffer: seq<seq<byte>> := [];
      ghost var kept, replayed := gproxyBuffer, newSocket.sendBuffer + Flatten(gproxyBuffer);
      while gproxyBuffer != []
        invariant socket == newSocket && newSocket.recvBuffer == old(newSocket.recvBuffer)
        invariant tempBuffer + gproxyBuffer == kept
        invariant newSocket.sendBuffer + Flatten(gproxyBuffer) == replayed
        decreases |gproxyBuffer|
      {
        ConcatAssociative(newSocket.sendBuffer, gproxyBuffer[0], Flatten(gproxyBuffer[1..]));
        ConcatAssociative(tempBuffer, [gproxyBuffer[0]], gproxyBuffer[1..]);
        newSocket.PutBytes(gproxyBuffer[0]);
        tempBuffer := tempBuffer + [gproxyBuffer[0]];
        gproxyBuffer := gproxyBuffer[1..];
      }
      gproxyBuffer := tempBuffer;
    }
  }
}
