/** Two GProxy++ endpoints, the bytes between them, and what survives when the
    connection breaks and is re-established. The server side follows
    ghost/gameplayer.cpp; the peer is its mirror image and opens the new socket. */
module ReliableLink {
  import opened Bytes
  import opened Framing
  import opened GpsProtocol
  import opened GamePlayer
  import opened Sequences

  /** One endpoint with its inbound path. hist, delivered, unbuffered and acks only
      record the past: what was handed to Send, what was queued, how many packets
      went out before buffering began, and the true counts behind the 32-bit ones
      of the ACKs on the inbound path, oldest first. */
  datatype Side = Side(
    hist: seq<seq<byte>>, delivered: seq<seq<byte>>, unbuffered: nat, acks: seq<nat>,
    sent: uint32, received: uint32, buffer: seq<seq<byte>>, buffering: bool,
    recvBuffer: seq<byte>, wire: seq<byte>, open: bool)

  /** awaiting: the peer has a new socket and has not yet read the server's
      GPSS_RECONNECT from it. */
  datatype System = System(server: Side, peer: Side, awaiting: bool)

  // ----- what the endpoints do -----

  predicate IsGamePacket(p: seq<byte>) {
    IsFrame(PLAYER_HEADERS, p) && p[0] == W3GS_HEADER_CONSTANT
  }

  predicate AllGamePackets(ps: seq<seq<byte>>) {
    forall i | 0 <= i < |ps| :: IsGamePacket(ps[i])
  }

  function Enqueue(x: Side, p: seq<byte>): Side {
    x.(hist := x.hist + [p], sent := ToUInt32(x.sent + 1),
       buffer := if x.buffering then x.buffer + [p] else x.buffer,
       unbuffered := if x.buffering then x.unbuffered else x.unbuffered + 1)
  }

  /** Bytes put on an open path are in flight; on a broken one they are lost. */
  function Carry(y: Side, bytes: seq<byte>): Side {
    if y.open then y.(wire := y.wire + bytes) else y
  }

  /** An ACK of what x has received. */
  function CarryAck(y: Side, x: Side): Side {
    if y.open then y.(wire := y.wire + AckPacket(x.received), acks := y.acks + [|x.delivered|]) else y
  }

  /** The counts reported by the ACKs among ps. */
  function AckValues(ps: seq<CommandPacket>): seq<uint32> {
    if ps == [] then [] else (if IsAck(ps[0]) then [U32At(ps[0].data, 4)] else []) + AckValues(ps[1..])
  }

  /** The ACKs that the next k bytes complete, as true counts. */
  function NextAcks(y: Side, k: nat): seq<nat>
    requires k <= |y.wire|
  {
    y.acks[..Min(|AckValues(Extract(PLAYER_HEADERS, y.recvBuffer + y.wire[..k]).packets)|, |y.acks|)]
  }

  /** k more bytes arrive; ExtractPackets and ProcessPackets run. */
  function Take(y: Side, k: nat): Side
    requires k <= |y.wire|
  {
    var x := Extract(PLAYER_HEADERS, y.recvBuffer + y.wire[..k]);
    y.(recvBuffer := x.rest, wire := y.wire[k..],
       delivered := y.delivered + GamePackets(x.packets),
       received := Counted(y.received, x.packets),
       buffer := AckAll(y.sent, y.buffer, x.packets), acks := y.acks[|NextAcks(y, k)|..])
  }

  datatype Step =
    | ServerSend(p: seq<byte>) | PeerSend(p: seq<byte>)
    | ServerAck | PeerAck
    | ServerControl(f: seq<byte>) | PeerControl(f: seq<byte>)
    | ServerBuffers | PeerBuffers
    | ToServer(k: nat) | ToPeer(k: nat)
    | CutToServer(k: nat) | CutToPeer(k: nat)
    | PeerDrops | Reconnect | StaleReconnect(n: nat) | PeerResumes

  /** Other GProxy++ packets, such as GPS_INIT. */
  predicate IsInert(f: seq<byte>) {
    IsFrame(PLAYER_HEADERS, f) && f[0] == GPS_HEADER_CONSTANT && !IsAck(ToPacket(f))
  }

  /** A reconnect is accepted only when the game is loaded and the player uses
      GProxy++, so both sides buffer; by then everything sent before buffering
      began has arrived. */
  predicate Enabled(s: System, step: Step) {
    match step
    case ServerSend(p) => IsGamePacket(p)
    case PeerSend(p) => IsGamePacket(p)
    case ServerControl(f) => IsInert(f)
    case PeerControl(f) => IsInert(f)
    case ServerBuffers => !s.server.buffering
    case PeerBuffers => !s.peer.buffering
    case ToServer(k) => k <= |s.server.wire|
    case ToPeer(k) => k <= |s.peer.wire|
    case CutToServer(k) => k <= |s.server.wire|
    case CutToPeer(k) => k <= |s.peer.wire|
    case Reconnect =>
      && !s.peer.open && s.peer.recvBuffer == [] && s.peer.wire == [] && !s.server.open
      && s.server.buffering && s.peer.buffering
      && s.server.unbuffered <= |s.peer.delivered| && s.peer.unbuffered <= |s.server.delivered|
    case StaleReconnect(n) => n <= |s.peer.delivered|
    case PeerResumes => s.awaiting && |s.peer.recvBuffer| >= 8
    case _ => true
  }

  function Apply(s: System, step: Step): System
    requires Enabled(s, step)
  {
    match step
    case ServerSend(p) => s.(server := Enqueue(s.server, p), peer := Carry(s.peer, p))
    case PeerSend(p) => s.(peer := Enqueue(s.peer, p), server := Carry(s.server, p))
    case ServerAck => s.(peer := CarryAck(s.peer, s.server))
    case PeerAck => s.(server := CarryAck(s.server, s.peer))
    case ServerControl(f) => s.(peer := Carry(s.peer, f))
    case PeerControl(f) => s.(server := Carry(s.server, f))
    case ServerBuffers => s.(server := s.server.(buffering := true))
    case PeerBuffers => s.(peer := s.peer.(buffering := true))
    case ToServer(k) => s.(server := Take(s.server, k))
    case ToPeer(k) =>
      if s.awaiting then
        s.(peer := s.peer.(recvBuffer := s.peer.recvBuffer + s.peer.wire[..k], wire := s.peer.wire[k..]))
      else s.(peer := Take(s.peer, k))
    case CutToServer(k) => s.(server := s.server.(wire := s.server.wire[..k], open := false))
    case CutToPeer(k) => s.(peer := s.peer.(wire := s.peer.wire[..k], open := false))
    case PeerDrops =>
      // the peer closes its socket; what it wrote may still reach the server
      System(s.server.(open := false), s.peer.(recvBuffer := [], wire := [], acks := [], open := false), false)
    case Reconnect =>
      // EventGProxyReconnect: the old socket goes with its unread bytes, the answer
      // and the replayed buffer are put on the new one
      var buffer := Trim(s.server.sent, s.server.buffer, s.peer.received);
      System(s.server.(recvBuffer := [], wire := [], acks := [], buffer := buffer),
             s.peer.(acks := [], wire := ReconnectPacket(s.server.received) + Flatten(buffer), open := true), true)
    case StaleReconnect(n) =>
      // the same, for a request whose own socket is already dead
      s.(server := s.server.(recvBuffer := [], wire := [], acks := [], open := false,
                             buffer := Trim(s.server.sent, s.server.buffer, ToUInt32(n))),
         peer := s.peer.(open := false))
    case PeerResumes =>
      var buffer := Trim(s.peer.sent, s.peer.buffer, U32At(s.peer.recvBuffer, 4));
      System(Carry(s.server.(open := s.peer.open), Flatten(buffer)),
             s.peer.(recvBuffer := s.peer.recvBuffer[8..], buffer := buffer), false)
  }

  // ----- runs -----

  /** The player has just joined: its join request is the one packet received. */
  predicate Init(s: System) {
    && |s.peer.hist| == 1 && IsGamePacket(s.peer.hist[0])
    && s.server == Side([], s.peer.hist, 0, [], 0, 1, [], false, [], [], true)
    && s.peer == Side(s.peer.hist, [], 1, [], 1, 0, [], false, [], [], true)
    && !s.awaiting
  }

  function Run(s: System, steps: seq<Step>): (r: Option<System>)
    decreases |steps|
  {
    if steps == [] then Some(s)
    else if Enabled(s, steps[0]) then Run(Apply(s, steps[0]), steps[1..])
    else None
  }

  datatype Option<T> = None | Some(value: T)

  // ----- wrap-around -----

  /** A trim to n removes nothing behind n: the buffer is empty, or it does not
      start beyond n, or n is not the larger one modulo 2^32 either. */
  predicate TrimSafe(total: nat, buffer: seq<seq<byte>>, n: nat) {
    var base := total - |buffer|;
    buffer == [] || base <= n || n % UINT32_COUNT <= base % UINT32_COUNT
  }

  predicate TrimsSafe(total: nat, buffer: seq<seq<byte>>, counts: seq<nat>)
    decreases |counts|
  {
    counts == [] ||
    (TrimSafe(total, buffer, counts[0])
      && TrimsSafe(total, Trim(ToUInt32(total), buffer, ToUInt32(counts[0])), counts[1..]))
  }

  /** The buffer's start and n lie between the same multiples of 2^32. */
  predicate SameEpoch(total: nat, buffer: seq<seq<byte>>, n: nat) {
    buffer == [] || (total - |buffer|) / UINT32_COUNT == n / UINT32_COUNT
  }

  /** The trims of a step do not suffer from wrap-around. */
  predicate NoWrap(s: System, step: Step)
    requires Enabled(s, step)
  {
    match step
    case ToServer(k) => TrimsSafe(|s.server.hist|, s.server.buffer, NextAcks(s.server, k))
    case ToPeer(k) => s.awaiting || TrimsSafe(|s.peer.hist|, s.peer.buffer, NextAcks(s.peer, k))
    case Reconnect => SameEpoch(|s.server.hist|, s.server.buffer, |s.peer.delivered|)
    case StaleReconnect(n) => TrimSafe(|s.server.hist|, s.server.buffer, n)
    case PeerResumes => SameEpoch(|s.peer.hist|, s.peer.buffer, |s.server.delivered|)
    case _ => true
  }

  /** No trim of the run suffers from wrap-around. */
  predicate NeverWraps(s: System, steps: seq<Step>)
    decreases |steps|
  {
    steps == [] ||
    (Enabled(s, steps[0]) && NoWrap(s, steps[0]) && NeverWraps(Apply(s, steps[0]), steps[1..]))
  }

  /** Fewer than 2^32 packets each way. */
  predicate Small(s: System) {
    |s.server.hist| < UINT32_COUNT && |s.peer.hist| < UINT32_COUNT
  }

  // ----- invariant -----

  /** The ACKs in flight report, modulo 2^32, counts the other side really had. */
  predicate Truthful(ps: seq<CommandPacket>, acks: seq<nat>, open: bool, confirmed: nat) {
    Reported(AckValues(ps), acks, open) && forall i | 0 <= i < |acks| :: acks[i] <= confirmed
  }

  predicate Reported(values: seq<uint32>, acks: seq<nat>, open: bool) {
    && |values| <= |acks| && (open ==> |values| == |acks|)
    && forall i | 0 <= i < |values| :: values[i] == ToUInt32(acks[i])
  }

  /** One direction: what is queued, followed by what is in flight, is a prefix of
      what was sent, and all of it while the path is open. */
  predicate Flow(hist: seq<seq<byte>>, delivered: seq<seq<byte>>, open: bool, stream: seq<byte>, acks: seq<nat>,
                 confirmed: nat) {
    var x := Extract(PLAYER_HEADERS, stream);
    && x.outcome == Waiting
    && delivered + GamePackets(x.packets) <= hist
    && (open ==> x.rest == [] && delivered + GamePackets(x.packets) == hist)
    && Truthful(x.packets, acks, open, confirmed)
  }

  /** The buffer is the end of the history, and reaches back to what the other
      side may still lack. */
  predicate Buffered(hist: seq<seq<byte>>, buffer: seq<seq<byte>>, unbuffered: nat, confirmed: nat) {
    && |buffer| <= |hist| && buffer == hist[|hist| - |buffer|..]
    && unbuffered <= |hist|
    && (|hist| - |buffer| <= unbuffered || |hist| - |buffer| <= confirmed)
  }

  /** What holds of the counters and the buffer in every run. */
  predicate Counters(x: Side) {
    && x.sent == ToUInt32(|x.hist|) && x.received == ToUInt32(|x.delivered|)
    && |x.buffer| <= |x.hist| && x.buffer == x.hist[|x.hist| - |x.buffer|..]
  }

  predicate SideInv(x: Side, confirmed: nat) {
    && x.sent == ToUInt32(|x.hist|) && x.received == ToUInt32(|x.delivered|)
    && AllGamePackets(x.hist)
    && Buffered(x.hist, x.buffer, x.unbuffered, confirmed)
    && (!x.buffering ==> x.unbuffered == |x.hist| && x.buffer == [])
  }

  /** The bytes in flight to the peer, not counting the reconnect answer. */
  function PeerStream(s: System): seq<byte> {
    var stream := s.peer.recvBuffer + s.peer.wire;
    if !s.awaiting then stream else if |stream| < 8 then [] else stream[8..]
  }

  function ServerStream(s: System): seq<byte> {
    s.server.recvBuffer + s.server.wire
  }

  predicate Handshake(s: System) {
    var stream := s.peer.recvBuffer + s.peer.wire;
    && !s.server.open && s.server.recvBuffer == [] && s.server.wire == [] && s.server.acks == []
    && s.peer.buffering && s.peer.unbuffered <= |s.server.delivered|
    && (|stream| >= 8 ==> stream[..8] == ReconnectPacket(ToUInt32(|s.server.delivered|)))
    && (s.peer.open ==> |stream| >= 8)
  }

  predicate Inv(s: System) {
    && SideInv(s.server, |s.peer.delivered|) && SideInv(s.peer, |s.server.delivered|)
    && Flow(s.server.hist, s.peer.delivered, s.peer.open, PeerStream(s), s.peer.acks, |s.server.delivered|)
    && Flow(s.peer.hist, s.server.delivered, s.server.open, ServerStream(s), s.server.acks, |s.peer.delivered|)
    && (s.awaiting ==> Handshake(s))
  }
}
