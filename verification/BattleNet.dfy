/** The battle.net connection of ghost/bnet.cpp: cutting the incoming stream into
    packets, and the throttled queue of outgoing packets. */
module BattleNet {
  import opened Bytes
  import opened Framing
  import opened Sequences
  import opened Sockets

  type Packet = seq<byte>

  /** The flood delays in milliseconds, as configured for this realm. */
  datatype Delays = Delays(medium: uint32, big: uint32)

  /** How long to hold the next packet back, given the size of the last one. */
  function WaitTicks(delays: Delays, lastSize: uint32): uint32 {
    if lastSize < 10 then 1000 else if lastSize < 100 then delays.medium else delays.big
  }

  /** The outgoing queue and the two fields the throttle looks at. */
  datatype Out = Out(queue: seq<Packet>, lastTicks: uint32, lastSize: uint32)

  /** GetTicks() - m_LastOutPacketTicks is computed in 32 bits. */
  predicate Due(delays: Delays, out: Out, now: uint32) {
    out.queue != [] && ToUInt32(now - out.lastTicks) >= WaitTicks(delays, out.lastSize)
  }

  function AfterSend(out: Out, now: uint32): Out
    requires out.queue != []
  {
    Out(out.queue[1..], now, ToUInt32(|out.queue[0]|))
  }

  predicate HasType(p: Packet, packetType: byte) {
    |p| >= 2 && p[1] == packetType
  }

  /** The queue without the packets drop selects. */
  function Without(drop: Packet -> bool, q: seq<Packet>): seq<Packet> {
    if q == [] then [] else (if drop(q[0]) then [] else [q[0]]) + Without(drop, q[1..])
  }

  /** The packets drop selects. */
  function Only(drop: Packet -> bool, q: seq<Packet>): seq<Packet> {
    if q == [] then [] else (if drop(q[0]) then [q[0]] else []) + Only(drop, q[1..])
  }

  lemma WithoutStep(drop: Packet -> bool, kept: seq<Packet>, q: seq<Packet>)
    requires q != []
    ensures kept + Without(drop, q) == (if drop(q[0]) then kept else kept + [q[0]]) + Without(drop, q[1..])
  {
  }

  lemma WithoutFront(drop: Packet -> bool, q: seq<Packet>)
    ensures Without(drop, q) == if q == [] then [] else (if drop(q[0]) then [] else [q[0]]) + Without(drop, q[1..])
  {
  }

  /** Of the packets drop selects none is left, of the others each. */
  lemma {:induction false} WithoutCounts(drop: Packet -> bool, q: seq<Packet>, p: Packet)
    ensures multiset(Without(drop, q))[p] == if drop(p) then 0 else multiset(q)[p]
  {
    hide Without;
    WithoutFront(drop, q);
    if q != [] {
      WithoutCounts(drop, q[1..], p);
      HeadTail(q);
    }
  }

  class Connection {
    const delays: Delays
    const socket: TcpSocket
    var packets: seq<CommandPacket>
    var outPackets: seq<Packet>
    var lastOutPacketTicks: uint32
    var lastOutPacketSize: uint32

    constructor (delays: Delays, socket: TcpSocket)
      ensures this.delays == delays && this.socket == socket && packets == [] && Outgoing() == Out([], 0, 0)
    {
      this.delays, this.socket := delays, socket;
      packets, outPackets, lastOutPacketTicks, lastOutPacketSize := [], [], 0, 0;
    }

    function Outgoing(): Out
      reads this
    {
      Out(outPackets, lastOutPacketTicks, lastOutPacketSize)
    }

    /** Move every complete packet from the receive buffer to the queue; a
        malformed one ends the connection. */
    method ExtractPackets()
      modifies this`packets, socket
      ensures var x := Extract(BNET_HEADERS, old(socket.recvBuffer));
        && packets == old(packets) + x.packets
        && socket.recvBuffer == x.rest && socket.sendBuffer == old(socket.sendBuffer)
        && socket.connected == (old(socket.connected) && x.outcome == Waiting)
    {
      var bytes := socket.recvBuffer;
      ghost var x := Extract(BNET_HEADERS, bytes);
      while |bytes| >= 4
        invariant socket.recvBuffer == bytes && socket.sendBuffer == old(socket.sendBuffer)
        invariant socket.connected == old(socket.connected)
        invariant packets + Extract(BNET_HEADERS, bytes).packets == old(packets) + x.packets
        invariant Extract(BNET_HEADERS, bytes).rest == x.rest
        invariant Extract(BNET_HEADERS, bytes).outcome == x.outcome
        decreases |bytes|
      {
        if bytes[0] == BNET_HEADER_CONSTANT {
          var length := U16At(bytes, 2);
          if length >= 4 {
            if |bytes| >= length {
              ConcatAssociative(packets, [ToPacket(bytes[..length])], Extract(BNET_HEADERS, bytes[length..]).packets);
              packets := packets + [CommandPacket(BNET_HEADER_CONSTANT, bytes[1], bytes[..length])];
              socket.recvBuffer := socket.recvBuffer[length..];
              bytes := bytes[length..];
            } else {
              return;
            }
          } else {
            socket.Disconnect();
            return;
          }
        } else {
          socket.Disconnect();
          return;
        }
      }
    }

    /** The throttled send of Update. The clock is read twice: for the decision,
        and again after the packet has been handed to the socket. */
    method SendNext(now: uint32, later: uint32)
      modifies this`outPackets, this`lastOutPacketTicks, this`lastOutPacketSize, socket`sendBuffer
      ensures Due(delays, old(Outgoing()), now) ==>
        Outgoing() == AfterSend(old(Outgoing()), later)
          && socket.sendBuffer == old(socket.sendBuffer) + old(outPackets)[0]
      ensures !Due(delays, old(Outgoing()), now) ==>
        Outgoing() == old(Outgoing()) && socket.sendBuffer == old(socket.sendBuffer)
    {
      var waitTicks: uint32;
      if lastOutPacketSize < 10 {
        waitTicks := 1000;
      } else if lastOutPacketSize < 100 {
        waitTicks := delays.medium;
      } else {
        waitTicks := delays.big;
      }
      if outPackets != [] && ToUInt32(now - lastOutPacketTicks) >= waitTicks {
        socket.PutBytes(outPackets[0]);
        lastOutPacketSize := ToUInt32(|outPackets[0]|);
        outPackets := outPackets[1..];
        lastOutPacketTicks := later;
      }
    }

    /** A connection attempt completed: the clock restarts and the queue is dropped. */
    method Connected(now: uint32)
      modifies this`outPackets, this`lastOutPacketTicks
      ensures Outgoing() == Out([], now, old(lastOutPacketSize))
    {
      lastOutPacketTicks := now;
      while outPackets != []
        invariant lastOutPacketTicks == now && lastOutPacketSize == old(lastOutPacketSize)
        decreases |outPackets|
      {
        outPackets := outPackets[1..];
      }
    }

    method UnqueuePackets(packetType: byte)
      modifies this`outPackets
      ensures outPackets == Without(p => HasType(p, packetType), old(outPackets))
      ensures forall p: Packet ::
        multiset(outPackets)[p] == if |p| >= 2 && p[1] == packetType then 0 else multiset(old(outPackets))[p]
    {
      hide Without;
      ghost var drop := p => HasType(p, packetType);
      var kept := [];
      while outPackets != []
        invariant kept + Without(drop, outPackets) == Without(drop, old(outPackets))
        decreases |outPackets|
      {
        WithoutStep(drop, kept, outPackets);
        var packet := outPackets[0];
        outPackets := outPackets[1..];
        if !HasType(packet, packetType) {
          kept := kept + [packet];
        }
      }
      WithoutNothing(drop, kept);
      outPackets := kept;
      forall p: Packet
        ensures multiset(outPackets)[p] == if drop(p) then 0 else multiset(old(outPackets))[p]
      {
        WithoutCounts(drop, old(outPackets), p);
      }
    }

    /** packetToUnqueue is the packet the chat command would be sent as. */
    method UnqueueChatCommand(packetToUnqueue: Packet)
      modifies this`outPackets
      ensures outPackets == Without(p => p == packetToUnqueue, old(outPackets))
      ensures forall p: Packet ::
        multiset(outPackets)[p] == if p == packetToUnqueue then 0 else multiset(old(outPackets))[p]
    {
      hide Without;
      ghost var drop := p => p == packetToUnqueue;
      var kept := [];
      while outPackets != []
        invariant kept + Without(drop, outPackets) == Without(drop, old(outPackets))
        decreases |outPackets|
      {
        WithoutStep(drop, kept, outPackets);
        var packet := outPackets[0];
        outPackets := outPackets[1..];
        if packet != packetToUnqueue {
          kept := kept + [packet];
        }
      }
      WithoutNothing(drop, kept);
      outPackets := kept;
      forall p: Packet
        ensures multiset(outPackets)[p] == if drop(p) then 0 else multiset(old(outPackets))[p]
      {
        WithoutCounts(drop, old(outPackets), p);
      }
    }
  }

  lemma WithoutNothing(drop: Packet -> bool, kept: seq<Packet>)
    ensures kept + Without(drop, []) == kept
  {
  }
}
