/** The methods of GamePlayer take exactly the server's steps of ReliableLink, so
    that what is proved of all runs holds of the object. */
module ServerSide {
  import opened Bytes
  import opened Framing
  import opened GpsProtocol
  import opened GamePlayer
  import opened ReliableDelivery
  import opened ReliableLink
  import opened Sequences
  import opened Sockets

  /** The player object is in the state of this side of the link. It buffers once
      GProxy++ is on and the game is loaded. */
  ghost predicate Matches(player: GamePlayer, gameLoaded: bool, x: Side)
    reads player, player.socket
  {
    && player.socket != null && player.socket.recvBuffer == x.recvBuffer && player.packets == []
    && player.totalPacketsSent == x.sent && player.totalPacketsReceived == x.received
    && player.gproxyBuffer == x.buffer && x.buffering == (player.gproxy && gameLoaded)
  }

  // ----- joining -----

  /** The link at the moment a player joins: of the packets the peer has sent the
      player object knows the first only, and some bytes are still unread. */
  function Joined(sent: seq<seq<byte>>, unread: seq<byte>): System
    requires sent != []
  {
    System(Side([], sent[..1], 0, [], 0, 1, [], false, unread, [], true),
           Side(sent, [], |sent|, [], ToUInt32(|sent|), 0, [], false, [], [], true), false)
  }

  /** The constructor takes over the join request alone. When everything the peer has
      sent is the join request and what the potential player had queued behind it,
      a run starts as Init says exactly when no game packet was queued behind it and
      no byte is unread. */
  method Join(potential: PotentialPlayer, pid: byte, reconnectKey: uint32, gameLoaded: bool,
              ghost request: CommandPacket, ghost sent: seq<seq<byte>>)
    returns (player: GamePlayer)
    requires potential.socket != null
    requires IsFrame(PLAYER_HEADERS, request.data) && request == ToPacket(request.data)
    requires request.packetType == W3GS_HEADER_CONSTANT && sent == GamePackets([request] + potential.packets)
    ensures sent != [] && Matches(player, gameLoaded, Joined(sent, potential.socket.recvBuffer).server)
    ensures Init(Joined(sent, potential.socket.recvBuffer))
      <==> GamePackets(potential.packets) == [] && potential.socket.recvBuffer == []
    ensures player.totalPacketsReceived == ToUInt32(|sent|) <==> |GamePackets(potential.packets)| % UINT32_COUNT == 0
  {
    player := new GamePlayer(potential, pid, reconnectKey);
    SentAtJoin(request, potential.packets);
    InitWhenAlone(request.data, GamePackets(potential.packets), potential.socket.recvBuffer);
  }

  lemma SentAtJoin(request: CommandPacket, queued: seq<CommandPacket>)
    requires request.packetType == W3GS_HEADER_CONSTANT
    ensures GamePackets([request] + queued) == [request.data] + GamePackets(queued)
  {
    assert ([request] + queued)[1..] == queued;
  }

  lemma InitWhenAlone(request: seq<byte>, behind: seq<seq<byte>>, unread: seq<byte>)
    requires IsGamePacket(request)
    ensures Init(Joined([request] + behind, unread)) <==> behind == [] && unread == []
    ensures 1 == ToUInt32(|[request] + behind|) <==> |behind| % UINT32_COUNT == 0
  {
    var sent := [request] + behind;
    assert sent[..1] == [request];
    if behind == [] {
      assert sent == [request];
    }
  }

  /** What goes wrong otherwise. Packets queued behind the join request are dropped
      uncounted, all later ones arrive, and on a reconnect the peer replays from the
      count it is told: it sends as many packets as were dropped, and they are the
      last ones, which the server holds already. */
  lemma DiscardedAreRepeated(request: seq<byte>, behind: seq<seq<byte>>, later: seq<seq<byte>>, buffer: seq<seq<byte>>)
    requires var hist := [request] + behind + later;
      && |buffer| <= |hist| && buffer == hist[|hist| - |buffer|..]
      && |hist| - |buffer| <= 1 + |later| && SameEpoch(|hist|, buffer, 1 + |later|)
    ensures var replay := Trim(ToUInt32(1 + |behind| + |later|), buffer, ToUInt32(1 + |later|));
      |replay| == |behind| && (|behind| <= |later| ==> replay == later[|later| - |behind|..])
  {
    hide Trim, ToUInt32, SameEpoch;
    var hist := [request] + behind + later;
    TrimSuffix(hist, buffer, 1 + |later|);
    if |behind| <= |later| {
      CutSecond([request] + behind, later, |later| - |behind|);
    }
  }

  // ----- running -----

  method SendStep(player: GamePlayer, data: seq<byte>, gameLoaded: bool, ghost s: System)
    requires Matches(player, gameLoaded, s.server) && IsGamePacket(data)
    modifies player, player.socket
    ensures Matches(player, gameLoaded, Apply(s, ServerSend(data)).server)
    ensures player.socket == old(player.socket) && player.socket.sendBuffer == old(player.socket.sendBuffer) + data
    ensures Apply(s, ServerSend(data)).peer == Carry(s.peer, data)
  {
    player.Send(data, gameLoaded);
  }

  method AckStep(player: GamePlayer, gameLoaded: bool, ghost s: System)
    requires Matches(player, gameLoaded, s.server) && player.gproxy
    modifies player.socket
    ensures Matches(player, gameLoaded, Apply(s, ServerAck).server)
    ensures var bytes := AckPacket(s.server.received);
      && player.socket.sendBuffer == old(player.socket.sendBuffer) + bytes
      && Apply(s, ServerAck).peer.wire == Carry(s.peer, bytes).wire
  {
    player.SendAck();
  }

  /** The answer to a GPS_INIT is a frame that is no ACK and no game packet, with
      its fields where the client looks for them. */
  lemma InitPacketIsInert(reconnectPort: uint16, pid: byte, reconnectKey: uint32, numEmptyActions: byte)
    ensures var p := InitPacket(reconnectPort, pid, reconnectKey, numEmptyActions);
      IsInert(p) && InitFields(p, reconnectPort, pid, reconnectKey, numEmptyActions)
  {
    InitLayout(reconnectPort, pid, reconnectKey, numEmptyActions);
  }

  /** How many of the packets are GPS_INIT. */
  function Inits(ps: seq<CommandPacket>): nat {
    if ps == [] then 0 else (if IsInit(ps[0]) then 1 else 0) + Inits(ps[1..])
  }

  /** The server sends the same control packet n times. */
  ghost function Controls(s: System, f: seq<byte>, n: nat): System
    requires IsInert(f)
    decreases n
  {
    if n == 0 then s else Controls(Apply(s, ServerControl(f)), f, n - 1)
  }

  lemma {:induction false} ControlsOnlyWrite(s: System, f: seq<byte>, n: nat)
    requires IsInert(f)
    ensures var t := Controls(s, f, n);
      t.server == s.server && t.awaiting == s.awaiting && t.peer == Carry(s.peer, Copies(f, n))
    decreases n
  {
    hide IsInert;
    if n > 0 {
      ControlsOnlyWrite(Apply(s, ServerControl(f)), f, n - 1);
      ConcatAssociative(s.peer.wire, f, Copies(f, n - 1));
    } else {
      assert s.peer.wire + [] == s.peer.wire;
    }
  }

  function Copies(f: seq<byte>, n: nat): seq<byte>
    decreases n
  {
    if n == 0 then [] else f + Copies(f, n - 1)
  }

  lemma {:induction false} AnswersAreCopies(f: seq<byte>, ps: seq<CommandPacket>)
    ensures InitAnswers(f, ps) == Copies(f, Inits(ps))
  {
    hide IsInit;
    if ps != [] {
      AnswersAreCopies(f, ps[1..]);
      var n := Inits(ps[1..]);
      if IsInit(ps[0]) {
        assert Copies(f, n + 1) == f + Copies(f, n);
      } else {
        assert [] + InitAnswers(f, ps[1..]) == InitAnswers(f, ps[1..]);
      }
    }
  }

  /** The link after k bytes have been read, each GPS_INIT among them answered, and
      buffering started if that turned GProxy++ on in a loaded game. */
  ghost function Received(s: System, k: nat, reconnect: bool, answer: seq<byte>, buffers: bool): System
    requires k <= |s.server.wire| && IsInert(answer)
  {
    var x := Extract(PLAYER_HEADERS, s.server.recvBuffer + s.server.wire[..k]);
    var taken := Apply(s, ToServer(k));
    var answered := Controls(taken, answer, if reconnect then Inits(x.packets) else 0);
    ControlsOnlyWrite(taken, answer, if reconnect then Inits(x.packets) else 0);
    if buffers && !answered.server.buffering then Apply(answered, ServerBuffers) else answered
  }

  /** k bytes arrive. What the game is handed is what the side counts as delivered,
      and what is written to the socket is what the link puts in front of the peer. */
  method ReceiveStep(player: GamePlayer, k: nat, gameLoaded: bool, reconnect: bool, reconnectPort: uint16,
                     numEmptyActions: byte, ghost s: System, arrived: seq<byte>)
    returns (handled: seq<seq<byte>>, ghost t: System)
    requires Matches(player, gameLoaded, s.server) && k <= |s.server.wire| && arrived == s.server.wire[..k]
    modifies player, player.socket
    ensures var answer := InitPacket(reconnectPort, player.pid, player.reconnectKey, numEmptyActions);
      IsInert(answer) && t == Received(s, k, reconnect, answer, player.gproxy && gameLoaded)
    ensures Matches(player, gameLoaded, t.server) && t.server.delivered == s.server.delivered + handled
    ensures player.socket == old(player.socket)
    ensures var answer := InitPacket(reconnectPort, player.pid, player.reconnectKey, numEmptyActions);
      var asked := if reconnect then Inits(Extract(PLAYER_HEADERS, s.server.recvBuffer + arrived).packets) else 0;
      && InitFields(answer, reconnectPort, player.pid, player.reconnectKey, numEmptyActions)
      && player.socket.sendBuffer == old(player.socket.sendBuffer) + Copies(answer, asked)
      && t.peer == Carry(s.peer, Copies(answer, asked))
  {
    hide Extract, AckAll, Counted, GamePackets, SeesInit, InitAnswers, InitPacket, Inits, Controls, Copies, NextAcks,
      IsInert, InitFields;
    InitPacketIsInert(reconnectPort, player.pid, player.reconnectKey, numEmptyActions);
    ghost var answer := InitPacket(reconnectPort, player.pid, player.reconnectKey, numEmptyActions);
    player.socket.recvBuffer := player.socket.recvBuffer + arrived;
    ghost var ps := Extract(PLAYER_HEADERS, player.socket.recvBuffer).packets;
    ghost var answers := if reconnect then InitAnswers(answer, ps) else [];
    handled := player.Receive(reconnect, reconnectPort, numEmptyActions);
    ControlsOnlyWrite(Apply(s, ToServer(k)), answer, if reconnect then Inits(ps) else 0);
    AnswersAreCopies(answer, ps);
    NoCopies(answer);
    t := Received(s, k, reconnect, answer, player.gproxy && gameLoaded);
    assert t.peer == Carry(s.peer, answers);
  }

  lemma NoCopies(f: seq<byte>)
    ensures Copies(f, 0) == []
  {
  }

  /** The game becomes loaded. With GProxy++ on, this is where buffering begins. */
  lemma GameLoaded(player: GamePlayer, s: System)
    requires Matches(player, false, s.server)
    ensures Matches(player, true, if player.gproxy then Apply(s, ServerBuffers).server else s.server)
  {
  }

  /** The peer's request arrives on a new socket and carries its count. What goes
      out on that socket is what the link puts in front of the peer. */
  method ReconnectStep(player: GamePlayer, newSocket: TcpSocket, gameLoaded: bool, lastPacket: uint32, ghost s: System)
    requires Matches(player, gameLoaded, s.server) && Enabled(s, Reconnect) && lastPacket == s.peer.received
    requires newSocket.recvBuffer == [] && newSocket.sendBuffer == []
    modifies player, newSocket
    ensures Matches(player, gameLoaded, Apply(s, Reconnect).server)
    ensures player.socket == newSocket && newSocket.sendBuffer == Apply(s, Reconnect).peer.wire
  {
    hide Trim, ReconnectPacket, Flatten;
    player.EventGProxyReconnect(newSocket, lastPacket);
    assert [] + ReconnectPacket(s.server.received) == ReconnectPacket(s.server.received);
  }

  /** The same for a request whose socket dies before the peer reads the answer. */
  method StaleReconnectStep(player: GamePlayer, newSocket: TcpSocket, gameLoaded: bool, count: nat, lastPacket: uint32,
                            ghost s: System)
    requires Matches(player, gameLoaded, s.server) && Enabled(s, StaleReconnect(count)) && lastPacket == ToUInt32(count)
    requires newSocket.recvBuffer == []
    modifies player, newSocket
    ensures Matches(player, gameLoaded, Apply(s, StaleReconnect(count)).server) && player.socket == newSocket
  {
    hide Trim, ReconnectPacket, Flatten, ToUInt32;
    player.EventGProxyReconnect(newSocket, lastPacket);
  }
}
