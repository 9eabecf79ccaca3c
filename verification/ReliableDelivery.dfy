/** Exactly-once, in-order delivery over every run of ReliableLink. */
module ReliableDelivery {
  import opened Bytes
  import opened Framing
  import opened GpsProtocol
  import opened GamePlayer
  import opened ReliableLink
  import opened Sequences

  // ----- the buffer -----

  lemma WrapDifference(total: nat, size: nat)
    requires size <= total
    ensures ToUInt32(ToUInt32(total) - size) == ToUInt32(total - size)
  {
  }

  /** Whatever count is reported, a trim leaves an end of the buffer. */
  lemma TrimIsSuffix(sent: uint32, hist: seq<seq<byte>>, buffer: seq<seq<byte>>, n: uint32)
    requires |buffer| <= |hist| && buffer == hist[|hist| - |buffer|..]
    ensures var r := Trim(sent, buffer, n);
      |r| <= |buffer| && r == hist[|hist| - |r|..]
  {
    hide ToUInt32;
  }

  /** How much a trim leaves. */
  lemma TrimLength(total: nat, buffer: seq<seq<byte>>, n: nat)
    requires |buffer| <= total
    ensures var base := total - |buffer|;
      var b, q := base % UINT32_COUNT, n % UINT32_COUNT;
      |Trim(ToUInt32(total), buffer, ToUInt32(n))| == if q > b then |buffer| - Min(q - b, |buffer|) else |buffer|
  {
    WrapDifference(total, |buffer|);
  }

  /** Exactly when a trim removes nothing behind n that the buffer still held. */
  lemma TrimSafeExact(hist: seq<seq<byte>>, buffer: seq<seq<byte>>, n: nat)
    requires |buffer| <= |hist| && buffer == hist[|hist| - |buffer|..] && n <= |hist|
    ensures var r := Trim(ToUInt32(|hist|), buffer, ToUInt32(n));
      |hist| - |r| <= Max(|hist| - |buffer|, n) <==> TrimSafe(|hist|, buffer, n)
  {
    hide Trim, ToUInt32;
    TrimLength(|hist|, buffer, n);
    ModOrder(|hist| - |buffer|, n);
  }

  lemma ModOrder(base: nat, n: nat)
    ensures base <= n ==> n % UINT32_COUNT - base % UINT32_COUNT <= n - base
  {
  }

  /** When the buffer's start and n are in the same multiple of 2^32, a trim leaves
      what comes after n or after the old start, whichever is later. */
  lemma TrimSuffix(hist: seq<seq<byte>>, buffer: seq<seq<byte>>, n: nat)
    requires |buffer| <= |hist| && buffer == hist[|hist| - |buffer|..] && n <= |hist|
    requires SameEpoch(|hist|, buffer, n)
    ensures Trim(ToUInt32(|hist|), buffer, ToUInt32(n)) == hist[Max(|hist| - |buffer|, n)..]
  {
    hide Trim, ToUInt32;
    TrimLength(|hist|, buffer, n);
    TrimIsSuffix(ToUInt32(|hist|), hist, buffer, ToUInt32(n));
    if buffer != [] {
      EpochDifference(|hist| - |buffer|, n);
    }
  }

  lemma EpochDifference(base: nat, n: nat)
    requires base / UINT32_COUNT == n / UINT32_COUNT
    ensures n % UINT32_COUNT - base % UINT32_COUNT == n - base
  {
  }

  /** The exact condition for a replay to hand the peer precisely what it lacks,
      with the counters allowed to wrap: the peer is not behind the buffer, and no
      multiple of 2^32 lies between the buffer's start and the peer's count. */
  lemma ReplayExact(hist: seq<seq<byte>>, buffer: seq<seq<byte>>, p: nat)
    requires |buffer| <= |hist| && p <= |hist| && buffer == hist[|hist| - |buffer|..]
    ensures hist[..p] + Trim(ToUInt32(|hist|), buffer, ToUInt32(p)) == hist
      <==> |hist| - |buffer| <= p && SameEpoch(|hist|, buffer, p)
  {
    hide Trim, ToUInt32;
    var kept := Trim(ToUInt32(|hist|), buffer, ToUInt32(p));
    TrimLength(|hist|, buffer, p);
    TrimIsSuffix(ToUInt32(|hist|), hist, buffer, ToUInt32(p));
    KeptLength(|hist|, |buffer|, p);
    assert |hist[..p] + kept| == p + |kept|;
  }

  /** The same about lengths only. */
  lemma KeptLength(total: nat, size: nat, p: nat)
    requires size <= total && p <= total
    ensures var base := total - size;
      var b, q := base % UINT32_COUNT, p % UINT32_COUNT;
      var kept := if q > b then size - Min(q - b, size) else size;
      p + kept == total <==> base <= p && (size == 0 || base / UINT32_COUNT == p / UINT32_COUNT)
  {
  }

  /** The wrap does happen: a peer that has everything is sent a packet twice. */
  lemma ReplayWraps(hist: seq<seq<byte>>)
    requires |hist| == UINT32_COUNT
    ensures var buffer := hist[UINT32_COUNT - 1..];
      hist[..UINT32_COUNT] + Trim(ToUInt32(|hist|), buffer, ToUInt32(UINT32_COUNT)) != hist
  {
    hide Trim;
    ReplayExact(hist, hist[UINT32_COUNT - 1..], UINT32_COUNT);
  }

  lemma BufferedTrim(hist: seq<seq<byte>>, buffer: seq<seq<byte>>, unbuffered: nat, confirmed: nat, n: nat)
    requires Buffered(hist, buffer, unbuffered, confirmed)
    requires n <= confirmed <= |hist| && TrimSafe(|hist|, buffer, n)
    ensures Buffered(hist, Trim(ToUInt32(|hist|), buffer, ToUInt32(n)), unbuffered, confirmed)
    ensures buffer == [] ==> Trim(ToUInt32(|hist|), buffer, ToUInt32(n)) == []
  {
    hide Trim, ToUInt32, TrimSafe;
    TrimIsSuffix(ToUInt32(|hist|), hist, buffer, ToUInt32(n));
    TrimSafeExact(hist, buffer, n);
  }

  lemma {:induction false} BufferedAckAll(hist: seq<seq<byte>>, buffer: seq<seq<byte>>, unbuffered: nat, confirmed: nat,
                                          ps: seq<CommandPacket>, acks: seq<nat>)
    requires Buffered(hist, buffer, unbuffered, confirmed) && confirmed <= |hist|
    requires Truthful(ps, acks, true, confirmed) && TrimsSafe(|hist|, buffer, acks)
    ensures Buffered(hist, AckAll(ToUInt32(|hist|), buffer, ps), unbuffered, confirmed)
    ensures buffer == [] ==> AckAll(ToUInt32(|hist|), buffer, ps) == []
    decreases |ps|
  {
    hide Trim, U32At, ToUInt32, TrimSafe, Buffered;
    if ps != [] {
      if IsAck(ps[0]) {
        var next := Trim(ToUInt32(|hist|), buffer, U32At(ps[0].data, 4));
        FirstAck(ps, acks, confirmed);
        BufferedTrim(hist, buffer, unbuffered, confirmed, acks[0]);
        BufferedAckAll(hist, next, unbuffered, confirmed, ps[1..], acks[1..]);
      } else {
        BufferedAckAll(hist, buffer, unbuffered, confirmed, ps[1..], acks);
      }
    }
  }

  lemma FirstAck(ps: seq<CommandPacket>, acks: seq<nat>, confirmed: nat)
    requires ps != [] && IsAck(ps[0]) && Truthful(ps, acks, true, confirmed)
    ensures acks != [] && U32At(ps[0].data, 4) == ToUInt32(acks[0]) && acks[0] <= confirmed
    ensures Truthful(ps[1..], acks[1..], true, confirmed)
  {
    hide U32At, ToUInt32, IsAck;
    assert AckValues(ps)[1..] == AckValues(ps[1..]);
  }

  // ----- one direction -----

  lemma {:induction false} AckValuesConcat(a: seq<CommandPacket>, b: seq<CommandPacket>)
    ensures AckValues(a + b) == AckValues(a) + AckValues(b)
  {
    hide IsAck, U32At, AckValues;
    AckValuesFront(a);
    AckValuesFront(a + b);
    if a == [] {
      NothingBefore(b);
      NothingBefore(AckValues(b));
    } else {
      Front(a, b);
      AckValuesConcat(a[1..], b);
      ConcatAssociative(if IsAck(a[0]) then [U32At(a[0].data, 4)] else [], AckValues(a[1..]), AckValues(b));
    }
  }

  lemma AckValuesFront(a: seq<CommandPacket>)
    ensures AckValues(a) == if a == [] then []
      else (if IsAck(a[0]) then [U32At(a[0].data, 4)] else []) + AckValues(a[1..])
  {
  }

  /** Any one frame appended to an open path arrives behind what is in flight. */
  lemma FlowAppend(stream: seq<byte>, f: seq<byte>)
    requires IsFrame(PLAYER_HEADERS, f)
    ensures var x := Extract(PLAYER_HEADERS, stream);
      x.outcome == Waiting && x.rest == [] ==>
        Extract(PLAYER_HEADERS, stream + f) == Extraction(x.packets + [ToPacket(f)], [], Waiting)
  {
    hide Extract, U16At;
    ExtractSplit(PLAYER_HEADERS, stream, f);
    ExtractOne(PLAYER_HEADERS, f);
    assert [] + f == f;
  }

  lemma FlowSend(hist: seq<seq<byte>>, delivered: seq<seq<byte>>, open: bool, stream: seq<byte>, acks: seq<nat>,
                 confirmed: nat, p: seq<byte>)
    requires Flow(hist, delivered, open, stream, acks, confirmed) && IsGamePacket(p)
    ensures Flow(hist + [p], delivered, open, if open then stream + p else stream, acks, confirmed)
  {
    hide Extract, U32At, U16At, GamePackets, AckValues;
    var ps := Extract(PLAYER_HEADERS, stream).packets;
    if open {
      FlowAppend(stream, p);
      OneGamePacket(ps, p);
      ConcatAssociative(delivered, GamePackets(ps), [p]);
    }
  }

  lemma OneGamePacket(ps: seq<CommandPacket>, p: seq<byte>)
    requires IsGamePacket(p)
    ensures GamePackets(ps + [ToPacket(p)]) == GamePackets(ps) + [p] && AckValues(ps + [ToPacket(p)]) == AckValues(ps)
  {
    hide U32At, U16At;
    GamePacketsConcat(ps, [ToPacket(p)]);
    AckValuesConcat(ps, [ToPacket(p)]);
    assert AckValues(ps) + [] == AckValues(ps);
  }

  lemma FlowControl(hist: seq<seq<byte>>, delivered: seq<seq<byte>>, open: bool, stream: seq<byte>, acks: seq<nat>,
                    confirmed: nat, f: seq<byte>)
    requires Flow(hist, delivered, open, stream, acks, confirmed) && IsInert(f)
    ensures Flow(hist, delivered, open, if open then stream + f else stream, acks, confirmed)
  {
    hide Extract, U32At, U16At, GamePackets, AckValues;
    var ps := Extract(PLAYER_HEADERS, stream).packets;
    if open {
      FlowAppend(stream, f);
      OneInertPacket(ps, f);
    }
  }

  lemma OneInertPacket(ps: seq<CommandPacket>, f: seq<byte>)
    requires IsInert(f)
    ensures GamePackets(ps + [ToPacket(f)]) == GamePackets(ps) && AckValues(ps + [ToPacket(f)]) == AckValues(ps)
  {
    hide U32At, U16At, IsAck;
    GamePacketsConcat(ps, [ToPacket(f)]);
    AckValuesConcat(ps, [ToPacket(f)]);
    assert GamePackets(ps) + [] == GamePackets(ps) && AckValues(ps) + [] == AckValues(ps);
  }

  lemma FlowAck(hist: seq<seq<byte>>, delivered: seq<seq<byte>>, open: bool, stream: seq<byte>, acks: seq<nat>,
                confirmed: nat, n: nat)
    requires Flow(hist, delivered, open, stream, acks, confirmed) && n <= confirmed
    ensures Flow(hist, delivered, open, if open then stream + AckPacket(ToUInt32(n)) else stream,
                 if open then acks + [n] else acks, confirmed)
  {
    hide AckPacket, Extract, U32At, U16At, GamePackets, AckValues, ToUInt32;
    var ps := Extract(PLAYER_HEADERS, stream).packets;
    if open {
      AckRoundTrip(ToUInt32(n));
      FlowAppend(stream, AckPacket(ToUInt32(n)));
      OneAck(ps, ToUInt32(n));
    }
  }

  lemma OneAck(ps: seq<CommandPacket>, n: uint32)
    ensures |AckPacket(n)| >= 4
    ensures GamePackets(ps + [ToPacket(AckPacket(n))]) == GamePackets(ps)
    ensures AckValues(ps + [ToPacket(AckPacket(n))]) == AckValues(ps) + [n]
  {
    hide U32At, U16At, AckPacket;
    AckRoundTrip(n);
    var p := ToPacket(AckPacket(n));
    GamePacketsConcat(ps, [p]);
    AckValuesConcat(ps, [p]);
    assert GamePackets(ps) + [] == GamePackets(ps);
  }

  /** The ACKs of the packets taken, and those of the packets still in flight. */
  lemma TruthfulSplit(a: seq<CommandPacket>, b: seq<CommandPacket>, acks: seq<nat>, open: bool, confirmed: nat)
    requires Truthful(a + b, acks, open, confirmed)
    ensures var n := |AckValues(a)|;
      n <= |acks| && Truthful(a, acks[..n], true, confirmed) && Truthful(b, acks[n..], open, confirmed)
    ensures Truthful(a, acks, false, confirmed)
  {
    hide AckValues, Reported;
    AckValuesConcat(a, b);
    ReportedSplit(AckValues(a), AckValues(b), acks, open);
  }

  lemma ReportedSplit(a: seq<uint32>, b: seq<uint32>, acks: seq<nat>, open: bool)
    requires Reported(a + b, acks, open)
    ensures |a| <= |acks| && Reported(a, acks[..|a|], true) && Reported(b, acks[|a|..], open)
      && Reported(a, acks, false)
  {
    hide ToUInt32;
    forall i | 0 <= i < |a|
      ensures a[i] == ToUInt32(acks[i])
    {
      assert (a + b)[i] == a[i];
    }
    forall i | 0 <= i < |b|
      ensures b[i] == ToUInt32(acks[|a| + i])
    {
      assert (a + b)[|a| + i] == b[i];
    }
  }

  lemma DeliverySplit(hist: seq<seq<byte>>, delivered: seq<seq<byte>>, a: seq<CommandPacket>, b: seq<CommandPacket>)
    ensures delivered + GamePackets(a + b) == delivered + GamePackets(a) + GamePackets(b)
    ensures delivered + GamePackets(a + b) <= hist ==> delivered + GamePackets(a) <= hist
  {
    hide GamePackets;
    GamePacketsConcat(a, b);
    ConcatAssociative(delivered, GamePackets(a), GamePackets(b));
  }

  /** However many bytes arrive, the same packets are queued or still in flight. */
  lemma FlowTake(hist: seq<seq<byte>>, delivered: seq<seq<byte>>, open: bool, head: seq<byte>, tail: seq<byte>,
                 acks: seq<nat>, confirmed: nat)
    requires Flow(hist, delivered, open, head + tail, acks, confirmed)
    ensures var x := Extract(PLAYER_HEADERS, head);
      var n := |AckValues(x.packets)|;
      && n <= |acks| && Truthful(x.packets, acks[..n], true, confirmed)
      && Flow(hist, delivered + GamePackets(x.packets), open, x.rest + tail, acks[n..], confirmed)
      && delivered + GamePackets(x.packets) <= hist
  {
    hide Extract, GamePackets, AckValues, Truthful;
    ExtractSplit(PLAYER_HEADERS, head, tail);
    var x := Extract(PLAYER_HEADERS, head);
    var y := Extract(PLAYER_HEADERS, x.rest + tail);
    TruthfulSplit(x.packets, y.packets, acks, open, confirmed);
    DeliverySplit(hist, delivered, x.packets, y.packets);
  }

  /** Losing the end of what is in flight leaves a prefix. */
  lemma FlowCut(hist: seq<seq<byte>>, delivered: seq<seq<byte>>, open: bool, head: seq<byte>, tail: seq<byte>,
                acks: seq<nat>, confirmed: nat)
    requires Flow(hist, delivered, open, head + tail, acks, confirmed)
    ensures Flow(hist, delivered, false, head, acks, confirmed)
  {
    hide Extract, GamePackets, AckValues, Truthful;
    ExtractSplit(PLAYER_HEADERS, head, tail);
    var x := Extract(PLAYER_HEADERS, head);
    if x.outcome != Waiting {
      ErrorStays(head, tail);
    }
    var y := Extract(PLAYER_HEADERS, x.rest + tail);
    TruthfulSplit(x.packets, y.packets, acks, open, confirmed);
    DeliverySplit(hist, delivered, x.packets, y.packets);
  }

  lemma ErrorStays(head: seq<byte>, tail: seq<byte>)
    requires Extract(PLAYER_HEADERS, head).outcome != Waiting
    ensures Extract(PLAYER_HEADERS, head + tail).outcome != Waiting
  {
    ExtractSplit(PLAYER_HEADERS, head, tail);
    RestIsStuck(head);
    var x := Extract(PLAYER_HEADERS, head);
    assert U16At(x.rest + tail, 2) == U16At(x.rest, 2);
  }

  /** What is left after an error still shows the same error. */
  lemma {:induction false} RestIsStuck(b: seq<byte>)
    ensures var x := Extract(PLAYER_HEADERS, b);
      Extract(PLAYER_HEADERS, x.rest) == Extraction([], x.rest, x.outcome)
    decreases |b|
  {
    if StartsWithFrame(PLAYER_HEADERS, b) {
      RestIsStuck(b[U16At(b, 2)..]);
    }
  }

  lemma FlowNothing(hist: seq<seq<byte>>, delivered: seq<seq<byte>>, acks: seq<nat>, confirmed: nat)
    requires delivered <= hist && forall i | 0 <= i < |acks| :: acks[i] <= confirmed
    ensures Flow(hist, delivered, false, [], acks, confirmed)
  {
  }

  lemma FlowAcks(hist: seq<seq<byte>>, delivered: seq<seq<byte>>, open: bool, stream: seq<byte>, acks: seq<nat>,
                 confirmed: nat)
    requires Flow(hist, delivered, open, stream, acks, confirmed)
    ensures forall i | 0 <= i < |acks| :: acks[i] <= confirmed
  {
  }

  /** A full replay from the receiver's own count makes the direction whole again. */
  lemma FlowReplay(hist: seq<seq<byte>>, delivered: seq<seq<byte>>, open: bool, confirmed: nat)
    requires delivered <= hist && AllGamePackets(hist)
    ensures Flow(hist, delivered, open, Flatten(hist[|delivered|..]), [], confirmed)
  {
    hide Extract, U16At;
    var rest := hist[|delivered|..];
    ExtractConcat(PLAYER_HEADERS, rest);
    GamePacketsOf(rest);
    assert delivered + rest == hist;
  }

  lemma {:induction false} GamePacketsOf(ps: seq<seq<byte>>)
    requires AllGamePackets(ps)
    ensures GamePackets(ToPackets(ps)) == ps && AckValues(ToPackets(ps)) == []
  {
    hide U16At, U32At;
    if ps != [] {
      GamePacketsOf(ps[1..]);
      assert ToPackets(ps)[1..] == ToPackets(ps[1..]);
    }
  }

  // ----- every step keeps the invariant -----

  lemma SentCounter(n: nat)
    ensures ToUInt32(ToUInt32(n) + 1) == ToUInt32(n + 1)
  {
  }

  lemma ReceivedCounter(delivered: nat, ps: seq<CommandPacket>)
    ensures Counted(ToUInt32(delivered), ps) == ToUInt32(delivered + |GamePackets(ps)|)
  {
    hide GamePackets;
    AddModulo(delivered, |GamePackets(ps)|);
  }

  lemma AddModulo(a: nat, b: nat)
    ensures ToUInt32(ToUInt32(a) + b) == ToUInt32(a + b)
  {
  }

  lemma SideEnqueue(x: Side, confirmed: nat, p: seq<byte>)
    requires SideInv(x, confirmed) && IsGamePacket(p)
    ensures SideInv(Enqueue(x, p), confirmed)
  {
    SentCounter(|x.hist|);
    hide ToUInt32, IsGamePacket;
    var base := |x.hist| - |x.buffer|;
    assert x.buffering ==> x.buffer + [p] == (x.hist + [p])[base..];
  }

  /** Nothing about a side gets worse when the other side has received more. */
  lemma SideConfirm(x: Side, confirmed: nat, more: nat)
    requires SideInv(x, confirmed) && confirmed <= more
    ensures SideInv(x, more)
  {
    hide ToUInt32, AllGamePackets;
  }

  lemma FlowConfirm(hist: seq<seq<byte>>, delivered: seq<seq<byte>>, open: bool, stream: seq<byte>, acks: seq<nat>,
                    confirmed: nat, more: nat)
    requires Flow(hist, delivered, open, stream, acks, confirmed) && confirmed <= more
    ensures Flow(hist, delivered, open, stream, acks, more)
  {
    hide Extract, GamePackets, AckValues, ToUInt32;
  }

  lemma SideTake(x: Side, confirmed: nat, k: nat)
    requires SideInv(x, confirmed) && k <= |x.wire| && confirmed <= |x.hist|
    requires Truthful(Extract(PLAYER_HEADERS, x.recvBuffer + x.wire[..k]).packets, NextAcks(x, k), true, confirmed)
    requires TrimsSafe(|x.hist|, x.buffer, NextAcks(x, k))
    ensures SideInv(Take(x, k), confirmed)
  {
    hide Extract, AckAll, GamePackets, ToUInt32, Truthful, TrimsSafe, NextAcks, AllGamePackets, Buffered;
    var ps := Extract(PLAYER_HEADERS, x.recvBuffer + x.wire[..k]).packets;
    ReceivedCounter(|x.delivered|, ps);
    BufferedAckAll(x.hist, x.buffer, x.unbuffered, confirmed, ps, NextAcks(x, k));
  }

  /** SideInv does not look at the inbound path. */
  lemma SameSideInv(x: Side, y: Side, confirmed: nat)
    requires SideInv(x, confirmed)
    requires y == x.(recvBuffer := y.recvBuffer, wire := y.wire, open := y.open, acks := y.acks)
    ensures SideInv(y, confirmed)
  {
    hide ToUInt32, AllGamePackets, Buffered;
  }

  /** Writing to the peer extends its stream, also behind an unread reconnect answer. */
  lemma PeerPath(s: System, peer: Side, bytes: seq<byte>)
    requires s.awaiting ==> Handshake(s)
    requires peer == Carry(s.peer, bytes).(acks := peer.acks)
    ensures var t := s.(peer := peer);
      && PeerStream(t) == (if s.peer.open then PeerStream(s) + bytes else PeerStream(s))
      && (s.awaiting ==> Handshake(t))
  {
    hide ReconnectPacket, ToUInt32;
    ConcatAssociative(s.peer.recvBuffer, s.peer.wire, bytes);
    var stream := s.peer.recvBuffer + s.peer.wire;
    if s.awaiting && s.peer.open {
      CutSecond([], stream, 8);
      assert (stream + bytes)[..8] == stream[..8] && (stream + bytes)[8..] == stream[8..] + bytes;
    }
  }

  lemma DeliveredBounds(s: System)
    requires Inv(s)
    ensures s.peer.delivered <= s.server.hist && s.server.delivered <= s.peer.hist
  {
    hide Extract, GamePackets, Truthful, SideInv, Handshake;
  }

  lemma ServerSendStep(s: System, p: seq<byte>)
    requires Inv(s) && IsGamePacket(p)
    ensures Inv(Apply(s, ServerSend(p)))
  {
    hide IsGamePacket, Flow, SideInv, ReconnectPacket;
    SideEnqueue(s.server, |s.peer.delivered|, p);
    SameSideInv(s.peer, Carry(s.peer, p), |s.server.delivered|);
    PeerPath(s, Carry(s.peer, p), p);
    FlowSend(s.server.hist, s.peer.delivered, s.peer.open, PeerStream(s), s.peer.acks, |s.server.delivered|, p);
  }

  lemma PeerSendStep(s: System, p: seq<byte>)
    requires Inv(s) && IsGamePacket(p)
    ensures Inv(Apply(s, PeerSend(p)))
  {
    hide IsGamePacket, Flow, SideInv, ReconnectPacket;
    SideEnqueue(s.peer, |s.server.delivered|, p);
    SameSideInv(s.server, Carry(s.server, p), |s.peer.delivered|);
    ConcatAssociative(s.server.recvBuffer, s.server.wire, p);
    FlowSend(s.peer.hist, s.server.delivered, s.server.open, ServerStream(s), s.server.acks, |s.peer.delivered|, p);
  }

  /** The count that goes into an ACK or an answer is right modulo 2^32. */
  lemma CountersRight(s: System)
    requires Inv(s)
    ensures s.server.received == ToUInt32(|s.server.delivered|) && s.peer.received == ToUInt32(|s.peer.delivered|)
    ensures s.server.sent == ToUInt32(|s.server.hist|) && s.peer.sent == ToUInt32(|s.peer.hist|)
  {
    hide Flow, Handshake, ToUInt32, Buffered, AllGamePackets;
  }

  lemma ServerAckStep(s: System)
    requires Inv(s)
    ensures Inv(Apply(s, ServerAck))
  {
    CountersRight(s);
    hide Flow, ReconnectPacket, AckPacket, SideInv, ToUInt32;
    var bytes := AckPacket(s.server.received);
    SameSideInv(s.peer, CarryAck(s.peer, s.server), |s.server.delivered|);
    PeerPath(s, CarryAck(s.peer, s.server), bytes);
    FlowAck(s.server.hist, s.peer.delivered, s.peer.open, PeerStream(s), s.peer.acks, |s.server.delivered|,
            |s.server.delivered|);
  }

  lemma PeerAckStep(s: System)
    requires Inv(s)
    ensures Inv(Apply(s, PeerAck))
  {
    CountersRight(s);
    hide Flow, ReconnectPacket, AckPacket, SideInv, ToUInt32;
    SameSideInv(s.server, CarryAck(s.server, s.peer), |s.peer.delivered|);
    ConcatAssociative(s.server.recvBuffer, s.server.wire, AckPacket(s.peer.received));
    FlowAck(s.peer.hist, s.server.delivered, s.server.open, ServerStream(s), s.server.acks, |s.peer.delivered|,
            |s.peer.delivered|);
  }

  lemma ServerControlStep(s: System, f: seq<byte>)
    requires Inv(s) && IsInert(f)
    ensures Inv(Apply(s, ServerControl(f)))
  {
    hide Flow, ReconnectPacket, SideInv, IsInert;
    SameSideInv(s.peer, Carry(s.peer, f), |s.server.delivered|);
    PeerPath(s, Carry(s.peer, f), f);
    FlowControl(s.server.hist, s.peer.delivered, s.peer.open, PeerStream(s), s.peer.acks, |s.server.delivered|, f);
  }

  lemma PeerControlStep(s: System, f: seq<byte>)
    requires Inv(s) && IsInert(f)
    ensures Inv(Apply(s, PeerControl(f)))
  {
    hide Flow, ReconnectPacket, SideInv, IsInert;
    SameSideInv(s.server, Carry(s.server, f), |s.peer.delivered|);
    ConcatAssociative(s.server.recvBuffer, s.server.wire, f);
    FlowControl(s.peer.hist, s.server.delivered, s.server.open, ServerStream(s), s.server.acks, |s.peer.delivered|, f);
  }

  /** What one side's reading does to its own invariant and its direction. */
  lemma TakeKeeps(hist: seq<seq<byte>>, y: Side, confirmed: nat, k: nat)
    requires SideInv(y, confirmed) && confirmed <= |y.hist| && k <= |y.wire|
    requires Flow(hist, y.delivered, y.open, y.recvBuffer + y.wire, y.acks, confirmed)
    requires TrimsSafe(|y.hist|, y.buffer, NextAcks(y, k))
    ensures var z := Take(y, k);
      SideInv(z, confirmed) && Flow(hist, z.delivered, z.open, z.recvBuffer + z.wire, z.acks, confirmed)
    ensures |Take(y, k).delivered| >= |y.delivered|
  {
    hide Flow, SideInv, Extract, TrimsSafe, AckAll, GamePackets, AckValues, Truthful, Counted;
    ReadPart(y.recvBuffer, y.wire, k);
    FlowTake(hist, y.delivered, y.open, y.recvBuffer + y.wire[..k], y.wire[k..], y.acks, confirmed);
    SideTake(y, confirmed, k);
  }

  lemma ReadPart(recvBuffer: seq<byte>, wire: seq<byte>, k: nat)
    requires k <= |wire|
    ensures recvBuffer + wire == (recvBuffer + wire[..k]) + wire[k..]
  {
  }

  lemma ToServerStep(s: System, k: nat)
    requires Inv(s) && k <= |s.server.wire| && NoWrap(s, ToServer(k))
    ensures Inv(Apply(s, ToServer(k)))
  {
    DeliveredBounds(s);
    hide Flow, SideInv, Take, TrimsSafe, NextAcks, ReconnectPacket, ToUInt32;
    var y := s.server;
    TakeKeeps(s.peer.hist, y, |s.peer.delivered|, k);
    var more := |Take(y, k).delivered|;
    SideConfirm(s.peer, |y.delivered|, more);
    FlowConfirm(s.server.hist, s.peer.delivered, s.peer.open, PeerStream(s), s.peer.acks, |y.delivered|, more);
    if s.awaiting {
      EmptyTake(y);
    }
    TakeKeepsOpen(y, k);
  }

  lemma TakeKeepsOpen(y: Side, k: nat)
    requires k <= |y.wire|
    ensures var z := Take(y, k);
      z.hist == y.hist && z.open == y.open && z.buffering == y.buffering && z.unbuffered == y.unbuffered
  {
  }

  lemma EmptyTake(y: Side)
    requires y.recvBuffer == [] && y.wire == [] && y.acks == []
    ensures var z := Take(y, 0);
      z.delivered == y.delivered && z.recvBuffer == [] && z.wire == [] && z.acks == []
  {
    hide AckAll, Counted;
    assert y.recvBuffer + y.wire[..0] == [];
  }

  lemma ToPeerStep(s: System, k: nat)
    requires Inv(s) && k <= |s.peer.wire| && NoWrap(s, ToPeer(k))
    ensures Inv(Apply(s, ToPeer(k)))
  {
    DeliveredBounds(s);
    hide Flow, SideInv, Take, TrimsSafe, NextAcks, ReconnectPacket, ToUInt32;
    var y := s.peer;
    if s.awaiting {
      ReadPart(y.recvBuffer, y.wire, k);
      SameSideInv(y, y.(recvBuffer := y.recvBuffer + y.wire[..k], wire := y.wire[k..]), |s.server.delivered|);
    } else {
      TakeKeeps(s.server.hist, y, |s.server.delivered|, k);
      var more := |Take(y, k).delivered|;
      SideConfirm(s.server, |y.delivered|, more);
      FlowConfirm(s.peer.hist, s.server.delivered, s.server.open, ServerStream(s), s.server.acks, |y.delivered|, more);
      TakeKeepsOpen(y, k);
    }
  }

  lemma BuffersStep(s: System)
    requires Inv(s)
    ensures !s.server.buffering ==> Inv(Apply(s, ServerBuffers))
    ensures !s.peer.buffering ==> Inv(Apply(s, PeerBuffers))
  {
    hide Flow, ReconnectPacket, ToUInt32;
  }

  lemma CutToServerStep(s: System, k: nat)
    requires Inv(s) && k <= |s.server.wire|
    ensures Inv(Apply(s, CutToServer(k)))
  {
    hide Flow, SideInv, ReconnectPacket, ToUInt32;
    var y := s.server;
    ReadPart(y.recvBuffer, y.wire, k);
    FlowCut(s.peer.hist, y.delivered, y.open, y.recvBuffer + y.wire[..k], y.wire[k..], y.acks, |s.peer.delivered|);
    SameSideInv(y, y.(wire := y.wire[..k], open := false), |s.peer.delivered|);
  }

  /** What the peer's stream consists of when its end beyond head is lost. */
  lemma PeerStreamParts(s: System, k: nat)
    requires k <= |s.peer.wire|
    ensures var head := s.peer.recvBuffer + s.peer.wire[..k];
      if s.awaiting && |head| < 8 then PeerStream(Apply(s, CutToPeer(k))) == []
      else
        PeerStream(Apply(s, CutToPeer(k))) == (if s.awaiting then head[8..] else head)
        && PeerStream(s) == PeerStream(Apply(s, CutToPeer(k))) + s.peer.wire[k..]
  {
    ReadPart(s.peer.recvBuffer, s.peer.wire, k);
    var head, tail := s.peer.recvBuffer + s.peer.wire[..k], s.peer.wire[k..];
    if s.awaiting && |head| >= 8 {
      assert (head + tail)[8..] == head[8..] + tail;
    }
  }

  /** The end of the peer's stream is lost, perhaps with part of the answer. */
  lemma PeerStreamCut(s: System, k: nat)
    requires Inv(s) && k <= |s.peer.wire|
    ensures var t := Apply(s, CutToPeer(k));
      Flow(t.server.hist, t.peer.delivered, false, PeerStream(t), t.peer.acks, |t.server.delivered|)
  {
    DeliveredBounds(s);
    PeerStreamParts(s, k);
    hide SideInv, Handshake, Flow, PeerStream;
    var y := s.peer;
    if s.awaiting && |y.recvBuffer + y.wire[..k]| < 8 {
      FlowAcks(s.server.hist, y.delivered, y.open, PeerStream(s), y.acks, |s.server.delivered|);
      FlowNothing(s.server.hist, y.delivered, y.acks, |s.server.delivered|);
    } else {
      FlowCut(s.server.hist, y.delivered, y.open, PeerStream(Apply(s, CutToPeer(k))), y.wire[k..], y.acks,
              |s.server.delivered|);
    }
  }

  lemma CutToPeerStep(s: System, k: nat)
    requires Inv(s) && k <= |s.peer.wire|
    ensures Inv(Apply(s, CutToPeer(k)))
  {
    hide SideInv, ReconnectPacket, Flow, ToUInt32;
    PeerStreamCut(s, k);
    var y := s.peer;
    ReadPart(y.recvBuffer, y.wire, k);
    SameSideInv(y, y.(wire := y.wire[..k], open := false), |s.server.delivered|);
  }

  lemma FlowClose(hist: seq<seq<byte>>, delivered: seq<seq<byte>>, open: bool, stream: seq<byte>, acks: seq<nat>,
                  confirmed: nat)
    requires Flow(hist, delivered, open, stream, acks, confirmed)
    ensures Flow(hist, delivered, false, stream, acks, confirmed)
  {
    hide Extract, GamePackets, AckValues, ToUInt32;
  }

  lemma PeerDropsStep(s: System)
    requires Inv(s)
    ensures Inv(Apply(s, PeerDrops))
  {
    DeliveredBounds(s);
    hide Flow, SideInv, ToUInt32, ReconnectPacket;
    var t := Apply(s, PeerDrops);
    FlowNothing(s.server.hist, s.peer.delivered, [], |s.server.delivered|);
    FlowClose(s.peer.hist, s.server.delivered, s.server.open, ServerStream(s), s.server.acks, |s.peer.delivered|);
    SameSideInv(s.server, t.server, |s.peer.delivered|);
    SameSideInv(s.peer, t.peer, |s.server.delivered|);
  }

  /** A trim to a count the other side really had. */
  lemma SideTrim(x: Side, y: Side, confirmed: nat, n: nat)
    requires SideInv(x, confirmed) && n <= confirmed <= |x.hist| && TrimSafe(|x.hist|, x.buffer, n)
    requires y == x.(buffer := Trim(x.sent, x.buffer, ToUInt32(n)), recvBuffer := y.recvBuffer, wire := y.wire,
                     open := y.open, acks := y.acks)
    ensures SideInv(y, confirmed)
  {
    hide Trim, ToUInt32, TrimSafe, Buffered, AllGamePackets;
    BufferedTrim(x.hist, x.buffer, x.unbuffered, confirmed, n);
  }

  /** A replay starts where the other side stands, exactly when the epochs agree. */
  lemma SideReplayExact(x: Side, n: nat)
    requires SideInv(x, n) && n <= |x.hist| && x.unbuffered <= n
    ensures x.hist[..n] + Trim(x.sent, x.buffer, ToUInt32(n)) == x.hist <==> SameEpoch(|x.hist|, x.buffer, n)
    ensures SameEpoch(|x.hist|, x.buffer, n) ==>
      TrimSafe(|x.hist|, x.buffer, n) && Trim(x.sent, x.buffer, ToUInt32(n)) == x.hist[n..]
  {
    hide Trim, ToUInt32, AllGamePackets;
    ReplayExact(x.hist, x.buffer, n);
    if SameEpoch(|x.hist|, x.buffer, n) {
      TrimSuffix(x.hist, x.buffer, n);
    }
  }

  lemma SideGamePackets(x: Side, confirmed: nat)
    requires SideInv(x, confirmed)
    ensures AllGamePackets(x.hist)
  {
  }

  lemma ReconnectStep(s: System)
    requires Inv(s) && Enabled(s, Reconnect) && NoWrap(s, Reconnect)
    ensures Inv(Apply(s, Reconnect))
  {
    DeliveredBounds(s);
    CountersRight(s);
    hide Flow, Trim, ReconnectPacket, SideInv, TrimSafe, SameEpoch, ToUInt32, AllGamePackets;
    var t := Apply(s, Reconnect);
    SideReplayExact(s.server, |s.peer.delivered|);
    SideTrim(s.server, t.server, |s.peer.delivered|, |s.peer.delivered|);
    SideGamePackets(s.server, |s.peer.delivered|);
    SameSideInv(s.peer, t.peer, |s.server.delivered|);
    FlowReplay(s.server.hist, s.peer.delivered, true, |s.server.delivered|);
    FlowNothing(s.peer.hist, s.server.delivered, [], |s.peer.delivered|);
    AnswerStripped(s.server.received, t.server.buffer);
    assert t.peer.recvBuffer + t.peer.wire == t.peer.wire;
  }

  lemma AnswerStripped(n: uint32, buffer: seq<seq<byte>>)
    ensures var stream := ReconnectPacket(n) + Flatten(buffer);
      |stream| >= 8 && stream[..8] == ReconnectPacket(n) && stream[8..] == Flatten(buffer)
  {
    hide ReconnectPacket, Flatten, U32At;
    ReconnectRoundTrip(n);
  }

  lemma StaleReconnectStep(s: System, n: nat)
    requires Inv(s) && n <= |s.peer.delivered| && NoWrap(s, StaleReconnect(n))
    ensures Inv(Apply(s, StaleReconnect(n)))
  {
    DeliveredBounds(s);
    hide SideInv, ReconnectPacket, Flow, Trim, TrimSafe, ToUInt32;
    var t := Apply(s, StaleReconnect(n));
    SideTrim(s.server, t.server, |s.peer.delivered|, n);
    FlowNothing(s.peer.hist, s.server.delivered, [], |s.peer.delivered|);
    FlowClose(s.server.hist, s.peer.delivered, s.peer.open, PeerStream(s), s.peer.acks, |s.server.delivered|);
    SameSideInv(s.peer, t.peer, |s.server.delivered|);
  }

  lemma ReadCount(stream: seq<byte>, head: seq<byte>, n: uint32)
    requires |stream| >= 8 && |head| >= 8 && stream[..8] == head[..8] == ReconnectPacket(n)
    ensures U32At(head, 4) == n
  {
    hide ReconnectPacket;
    ReconnectRoundTrip(n);
    assert forall i | 0 <= i < 8 :: ReconnectPacket(n)[i] == head[i];
  }

  /** The count the peer reads is the number of its packets the server holds, modulo 2^32. */
  lemma AnswerRead(s: System)
    requires Inv(s) && Enabled(s, PeerResumes)
    ensures U32At(s.peer.recvBuffer, 4) == ToUInt32(|s.server.delivered|)
  {
    hide Flow, SideInv, ReconnectPacket, ToUInt32, U32At;
    var stream := s.peer.recvBuffer + s.peer.wire;
    assert stream[..8] == s.peer.recvBuffer[..8];
    ReadCount(stream, s.peer.recvBuffer, ToUInt32(|s.server.delivered|));
  }

  /** The bytes on the two paths after the peer has read the answer. */
  lemma PeerResumesPaths(s: System)
    requires Handshake(s) && Enabled(s, PeerResumes)
    ensures var t := Apply(s, PeerResumes);
      && ServerStream(t) == (if s.peer.open then Flatten(t.peer.buffer) else []) && t.server.acks == []
      && PeerStream(t) == PeerStream(s) && s.peer.unbuffered <= |s.server.delivered|
  {
    hide Trim, ReconnectPacket, ToUInt32, U32At, Flatten;
    var t := Apply(s, PeerResumes);
    CutSecond(s.peer.recvBuffer, s.peer.wire, 0);
    assert t.peer.recvBuffer + t.peer.wire == (s.peer.recvBuffer + s.peer.wire)[8..];
  }

  lemma PeerResumesStep(s: System)
    requires Inv(s) && Enabled(s, PeerResumes) && NoWrap(s, PeerResumes)
    ensures Inv(Apply(s, PeerResumes))
  {
    DeliveredBounds(s);
    AnswerRead(s);
    hide Flow, Trim, SideInv, Handshake, TrimSafe, SameEpoch, ToUInt32, U32At, AllGamePackets, PeerStream, ServerStream;
    var t := Apply(s, PeerResumes);
    PeerResumesPaths(s);
    SideReplayExact(s.peer, |s.server.delivered|);
    SideTrim(s.peer, t.peer, |s.server.delivered|, |s.server.delivered|);
    SideGamePackets(s.peer, |s.server.delivered|);
    FlowReplay(s.peer.hist, s.server.delivered, true, |s.peer.delivered|);
    FlowNothing(s.peer.hist, s.server.delivered, [], |s.peer.delivered|);
    SameSideInv(s.server, t.server, |s.peer.delivered|);
  }

  lemma {:induction false} StepKeepsInv(s: System, step: Step)
    requires Inv(s) && Enabled(s, step) && NoWrap(s, step)
    ensures Inv(Apply(s, step))
  {
    hide Inv, IsGamePacket, IsInert, NoWrap;
    match step
    case ServerSend(p) => ServerSendStep(s, p);
    case PeerSend(p) => PeerSendStep(s, p);
    case ServerAck => ServerAckStep(s);
    case PeerAck => PeerAckStep(s);
    case ServerControl(f) => ServerControlStep(s, f);
    case PeerControl(f) => PeerControlStep(s, f);
    case ServerBuffers => BuffersStep(s);
    case PeerBuffers => BuffersStep(s);
    case ToServer(k) => ToServerStep(s, k);
    case ToPeer(k) => ToPeerStep(s, k);
    case CutToServer(k) => CutToServerStep(s, k);
    case CutToPeer(k) => CutToPeerStep(s, k);
    case PeerDrops => PeerDropsStep(s);
    case Reconnect => ReconnectStep(s);
    case StaleReconnect(n) => StaleReconnectStep(s, n);
    case PeerResumes => PeerResumesStep(s);
  }

  lemma InitInv(s: System)
    requires Init(s)
    ensures Inv(s)
  {
    assert s.peer.hist == [s.peer.hist[0]];
  }

  lemma {:induction false} RunKeepsInv(s: System, steps: seq<Step>)
    requires Inv(s) && Run(s, steps).Some? && NeverWraps(s, steps)
    ensures Inv(Run(s, steps).value)
    decreases |steps|
  {
    hide Inv, Apply, Enabled, NoWrap;
    if steps != [] {
      StepKeepsInv(s, steps[0]);
      RunKeepsInv(Apply(s, steps[0]), steps[1..]);
    }
  }

  // ----- short histories do not wrap -----

  lemma SmallTrim(total: nat, buffer: seq<seq<byte>>, n: nat)
    requires |buffer| <= total < UINT32_COUNT && n < UINT32_COUNT
    ensures TrimSafe(total, buffer, n) && SameEpoch(total, buffer, n)
  {
  }

  lemma {:induction false} SmallTrims(hist: seq<seq<byte>>, buffer: seq<seq<byte>>, counts: seq<nat>)
    requires |buffer| <= |hist| < UINT32_COUNT && buffer == hist[|hist| - |buffer|..]
    requires forall i | 0 <= i < |counts| :: counts[i] < UINT32_COUNT
    ensures TrimsSafe(|hist|, buffer, counts)
    decreases |counts|
  {
    hide Trim, ToUInt32, TrimSafe;
    if counts != [] {
      SmallTrim(|hist|, buffer, counts[0]);
      var next := Trim(ToUInt32(|hist|), buffer, ToUInt32(counts[0]));
      TrimIsSuffix(ToUInt32(|hist|), hist, buffer, ToUInt32(counts[0]));
      SmallTrims(hist, next, counts[1..]);
    }
  }

  /** The largest of n and the counts. */
  function Largest(n: nat, counts: seq<uint32>): (r: nat)
    ensures r >= n && (forall i | 0 <= i < |counts| :: counts[i] <= r) && (r == n || r in counts)
    decreases |counts|
  {
    if counts == [] then n else Largest(Max(n, counts[0]), counts[1..])
  }

  /** ACKs release the buffer: whatever packets arrive, it holds afterwards what comes
      behind the largest count reported, unless it began there or later already. */
  lemma {:induction false} AcksRelease(hist: seq<seq<byte>>, buffer: seq<seq<byte>>, ps: seq<CommandPacket>)
    requires |buffer| <= |hist| < UINT32_COUNT && buffer == hist[|hist| - |buffer|..]
    requires forall i | 0 <= i < |AckValues(ps)| :: AckValues(ps)[i] <= |hist|
    ensures Largest(|hist| - |buffer|, AckValues(ps)) <= |hist|
    ensures AckAll(|hist|, buffer, ps) == hist[Largest(|hist| - |buffer|, AckValues(ps))..]
    decreases |ps|
  {
    hide Trim, U32At, IsAck, ToUInt32;
    if ps != [] {
      AckValuesFront(ps);
      if IsAck(ps[0]) {
        var n := U32At(ps[0].data, 4);
        assert AckValues(ps)[0] == n && AckValues(ps)[1..] == AckValues(ps[1..]);
        SmallTrim(|hist|, buffer, n);
        TrimSuffix(hist, buffer, n);
        SmallCount(|hist|);
        SmallCount(n);
        AcksRelease(hist, hist[Max(|hist| - |buffer|, n)..], ps[1..]);
      } else {
        NothingBefore(AckValues(ps[1..]));
        AcksRelease(hist, buffer, ps[1..]);
      }
    }
  }

  lemma SmallCount(n: nat)
    requires n < UINT32_COUNT
    ensures ToUInt32(n) == n
  {
  }

  /** What Inv says about sizes. */
  lemma InvSizes(s: System)
    requires Inv(s)
    ensures Counters(s.server) && Counters(s.peer)
    ensures |s.peer.delivered| <= |s.server.hist| && |s.server.delivered| <= |s.peer.hist|
    ensures forall i | 0 <= i < |s.server.acks| :: s.server.acks[i] <= |s.peer.delivered|
    ensures forall i | 0 <= i < |s.peer.acks| :: s.peer.acks[i] <= |s.server.delivered|
  {
    DeliveredBounds(s);
    hide Extract, GamePackets, AckValues, ToUInt32, Handshake, AllGamePackets;
  }

  lemma SmallStep(s: System, step: Step)
    requires Inv(s) && Small(s) && Enabled(s, step)
    ensures NoWrap(s, step)
  {
    InvSizes(s);
    hide Inv, TrimSafe, SameEpoch, TrimsSafe, Trim, AckValues, Extract, ToUInt32;
    match step
    case ToServer(k) => SmallTrims(s.server.hist, s.server.buffer, NextAcks(s.server, k));
    case ToPeer(k) => SmallTrims(s.peer.hist, s.peer.buffer, NextAcks(s.peer, k));
    case Reconnect => SmallTrim(|s.server.hist|, s.server.buffer, |s.peer.delivered|);
    case StaleReconnect(n) => SmallTrim(|s.server.hist|, s.server.buffer, n);
    case PeerResumes => SmallTrim(|s.peer.hist|, s.peer.buffer, |s.server.delivered|);
    case _ =>
  }

  lemma StepGrows(s: System, step: Step)
    requires Enabled(s, step)
    ensures s.server.hist <= Apply(s, step).server.hist && s.peer.hist <= Apply(s, step).peer.hist
    ensures s.server.delivered <= Apply(s, step).server.delivered
  {
    hide Trim, Extract, AckAll, Counted, NextAcks, ReconnectPacket, AckPacket, Flatten, GamePackets;
  }

  lemma {:induction false} HistoryGrows(s: System, steps: seq<Step>)
    requires Run(s, steps).Some?
    ensures var t := Run(s, steps).value;
      s.server.hist <= t.server.hist && s.peer.hist <= t.peer.hist && s.server.delivered <= t.server.delivered
    decreases |steps|
  {
    hide Apply, Enabled;
    if steps != [] {
      StepGrows(s, steps[0]);
      HistoryGrows(Apply(s, steps[0]), steps[1..]);
    }
  }

  /** With fewer than 2^32 packets each way no trim of a run wraps. */
  lemma {:induction false} SmallNeverWraps(s: System, steps: seq<Step>)
    requires Inv(s) && Run(s, steps).Some? && Small(Run(s, steps).value)
    ensures NeverWraps(s, steps)
    decreases |steps|
  {
    HistoryGrows(s, steps);
    hide Inv, Apply, Enabled, NoWrap;
    if steps != [] {
      SmallStep(s, steps[0]);
      StepKeepsInv(s, steps[0]);
      SmallNeverWraps(Apply(s, steps[0]), steps[1..]);
    }
  }

  // ----- what needs no condition -----

  lemma CountersTrim(x: Side, y: Side, n: uint32)
    requires Counters(x)
    requires y == x.(buffer := Trim(x.sent, x.buffer, n), recvBuffer := y.recvBuffer, wire := y.wire,
                     open := y.open, acks := y.acks)
    ensures Counters(y)
  {
    hide Trim, ToUInt32;
    TrimIsSuffix(x.sent, x.hist, x.buffer, n);
  }

  lemma CountersEnqueue(x: Side, p: seq<byte>)
    requires Counters(x) && (!x.buffering ==> x.buffer == [])
    ensures Counters(Enqueue(x, p))
  {
    SentCounter(|x.hist|);
    hide ToUInt32;
    assert x.buffering ==> x.buffer + [p] == (x.hist + [p])[|x.hist| - |x.buffer|..];
  }

  lemma {:induction false} AckAllIsSuffix(sent: uint32, hist: seq<seq<byte>>, buffer: seq<seq<byte>>,
                                          ps: seq<CommandPacket>)
    requires |buffer| <= |hist| && buffer == hist[|hist| - |buffer|..]
    ensures var r := AckAll(sent, buffer, ps);
      |r| <= |buffer| && r == hist[|hist| - |r|..]
    decreases |ps|
  {
    hide Trim, U32At, IsAck;
    if ps != [] {
      var next := if IsAck(ps[0]) then Trim(sent, buffer, U32At(ps[0].data, 4)) else buffer;
      if IsAck(ps[0]) {
        TrimIsSuffix(sent, hist, buffer, U32At(ps[0].data, 4));
      }
      AckAllIsSuffix(sent, hist, next, ps[1..]);
    }
  }

  lemma CountersTake(x: Side, k: nat)
    requires Counters(x) && k <= |x.wire|
    ensures Counters(Take(x, k)) && |Take(x, k).buffer| <= |x.buffer|
  {
    hide Extract, AckAll, GamePackets, ToUInt32, NextAcks;
    var ps := Extract(PLAYER_HEADERS, x.recvBuffer + x.wire[..k]).packets;
    ReceivedCounter(|x.delivered|, ps);
    AckAllIsSuffix(x.sent, x.hist, x.buffer, ps);
  }

  predicate Counting(s: System) {
    && Counters(s.server) && Counters(s.peer)
    && (!s.server.buffering ==> s.server.buffer == []) && (!s.peer.buffering ==> s.peer.buffer == [])
  }

  lemma ShorterTrim(sent: uint32, buffer: seq<seq<byte>>, n: uint32)
    ensures buffer == [] ==> Trim(sent, buffer, n) == []
  {
  }

  lemma StepCounts(s: System, step: Step)
    requires Counting(s) && Enabled(s, step)
    ensures Counting(Apply(s, step))
  {
    hide Counters, Trim, Take, Enqueue, ToUInt32, ReconnectPacket, AckPacket, Flatten, U32At, IsGamePacket, IsInert;
    var t := Apply(s, step);
    match step
    case ServerSend(p) =>
      CountersEnqueue(s.server, p);
      EnqueueBuffers(s.server, p);
      CountersSame(s.peer, t.peer);
    case PeerSend(p) =>
      CountersEnqueue(s.peer, p);
      EnqueueBuffers(s.peer, p);
      CountersSame(s.server, t.server);
    case ToServer(k) =>
      CountersTake(s.server, k);
      TakeKeepsOpen(s.server, k);
    case ToPeer(k) =>
      CountersTake(s.peer, k);
      TakeKeepsOpen(s.peer, k);
      if s.awaiting {
        CountersSame(s.peer, t.peer);
      }
    case Reconnect =>
      CountersTrim(s.server, t.server, s.peer.received);
      ShorterTrim(s.server.sent, s.server.buffer, s.peer.received);
      CountersSame(s.peer, t.peer);
    case StaleReconnect(n) =>
      CountersTrim(s.server, t.server, ToUInt32(n));
      ShorterTrim(s.server.sent, s.server.buffer, ToUInt32(n));
      CountersSame(s.peer, t.peer);
    case PeerResumes =>
      CountersTrim(s.peer, t.peer, U32At(s.peer.recvBuffer, 4));
      ShorterTrim(s.peer.sent, s.peer.buffer, U32At(s.peer.recvBuffer, 4));
      CountersSame(s.server, t.server);
    case _ =>
      CountersSame(s.server, t.server);
      CountersSame(s.peer, t.peer);
  }

  lemma EnqueueBuffers(x: Side, p: seq<byte>)
    ensures var y := Enqueue(x, p);
      y.buffering == x.buffering && (!x.buffering ==> y.buffer == x.buffer)
  {
  }

  lemma CountersSame(x: Side, y: Side)
    requires Counters(x) && y == x.(recvBuffer := y.recvBuffer, wire := y.wire, open := y.open, acks := y.acks,
                                    buffering := y.buffering)
    ensures Counters(y)
  {
  }

  lemma {:induction false} RunCounts(s: System, steps: seq<Step>)
    requires Counting(s) && Run(s, steps).Some?
    ensures Counting(Run(s, steps).value)
    decreases |steps|
  {
    hide Counting, Apply, Enabled;
    if steps != [] {
      StepCounts(s, steps[0]);
      RunCounts(Apply(s, steps[0]), steps[1..]);
    }
  }

  // ----- the results -----

  /** In every run whatsoever, of any length: the counters are the numbers of packets
      sent and queued modulo 2^32, and each replay buffer is exactly the end of what
      was sent. */
  lemma CountersAndBuffers(init: System, steps: seq<Step>)
    requires Init(init) && Run(init, steps).Some?
    ensures var t := Run(init, steps).value;
      Counters(t.server) && Counters(t.peer)
  {
    hide Run;
    assert Counting(init);
    RunCounts(init, steps);
  }

  /** In every run whose trims do not wrap: each side holds a prefix of what the other
      sent, nothing lost, repeated or reordered. */
  lemma ExactlyOnceInOrder(init: System, steps: seq<Step>)
    requires Init(init) && Run(init, steps).Some? && NeverWraps(init, steps)
    ensures var t := Run(init, steps).value;
      t.peer.delivered <= t.server.hist && t.server.delivered <= t.peer.hist
  {
    InitInv(init);
    hide Inv, Init, Run, NeverWraps;
    RunKeepsInv(init, steps);
    DeliveredBounds(Run(init, steps).value);
  }

  /** In particular in every run with fewer than 2^32 packets each way, where the
      counters are those numbers themselves. */
  lemma ExactlyOnceWhenSmall(init: System, steps: seq<Step>)
    requires Init(init) && Run(init, steps).Some? && Small(Run(init, steps).value)
    ensures var t := Run(init, steps).value;
      && t.server.sent == |t.server.hist| && |t.server.buffer| <= |t.server.hist|
      && t.server.buffer == t.server.hist[t.server.sent - |t.server.buffer|..]
      && t.peer.delivered <= t.server.hist && t.peer.received == |t.peer.delivered|
      && t.server.delivered <= t.peer.hist && t.server.received == |t.server.delivered|
  {
    InitInv(init);
    hide Inv, Init, Run, NeverWraps, Small;
    SmallNeverWraps(init, steps);
    RunKeepsInv(init, steps);
    SmallMeans(Run(init, steps).value);
  }

  lemma SmallMeans(t: System)
    requires Inv(t) && Small(t)
    ensures t.server.sent == |t.server.hist| && |t.server.buffer| <= |t.server.hist|
    ensures t.server.buffer == t.server.hist[t.server.sent - |t.server.buffer|..]
    ensures t.peer.delivered <= t.server.hist && t.peer.received == |t.peer.delivered|
    ensures t.server.delivered <= t.peer.hist && t.server.received == |t.server.delivered|
  {
    DeliveredBounds(t);
    InvSizes(t);
    hide Inv;
  }

  /** In a state reached without wrap-around a reconnect hands the peer precisely
      what it lacks if and only if the trim it makes does not wrap; and likewise the
      peer's own replay. */
  lemma ReconnectExact(init: System, steps: seq<Step>)
    requires Init(init) && Run(init, steps).Some? && NeverWraps(init, steps)
    ensures var t := Run(init, steps).value;
      && (Enabled(t, Reconnect) ==>
        (t.peer.delivered + Apply(t, Reconnect).server.buffer == t.server.hist <==> NoWrap(t, Reconnect)))
      && (Enabled(t, PeerResumes) ==>
        (t.server.delivered + Apply(t, PeerResumes).peer.buffer == t.peer.hist <==> NoWrap(t, PeerResumes)))
  {
    InitInv(init);
    hide Inv, Init, Run, NeverWraps;
    RunKeepsInv(init, steps);
    var t := Run(init, steps).value;
    if Enabled(t, Reconnect) {
      ServerReplayExact(t);
    }
    if Enabled(t, PeerResumes) {
      PeerReplayExact(t);
    }
  }

  lemma ServerReplayExact(t: System)
    requires Inv(t) && Enabled(t, Reconnect)
    ensures t.peer.delivered + Apply(t, Reconnect).server.buffer == t.server.hist <==> NoWrap(t, Reconnect)
  {
    DeliveredBounds(t);
    CountersRight(t);
    hide Flow, SideInv, Trim, SameEpoch, ToUInt32, ReconnectPacket;
    SideReplayExact(t.server, |t.peer.delivered|);
    assert t.server.hist[..|t.peer.delivered|] == t.peer.delivered;
  }

  lemma PeerReplayExact(t: System)
    requires Inv(t) && Enabled(t, PeerResumes)
    ensures t.server.delivered + Apply(t, PeerResumes).peer.buffer == t.peer.hist <==> NoWrap(t, PeerResumes)
  {
    DeliveredBounds(t);
    AnswerRead(t);
    hide Flow, SideInv, Trim, SameEpoch, ToUInt32, ReconnectPacket, U32At;
    SideReplayExact(t.peer, |t.server.delivered|);
    assert t.peer.hist[..|t.server.delivered|] == t.server.delivered;
  }

  /** Once an open path has drained, the reader holds the whole history. */
  lemma DrainedIsComplete(init: System, steps: seq<Step>)
    requires Init(init) && Run(init, steps).Some? && NeverWraps(init, steps)
    ensures var t := Run(init, steps).value;
      && (t.peer.open && PeerStream(t) == [] ==> t.peer.delivered == t.server.hist)
      && (t.server.open && ServerStream(t) == [] ==> t.server.delivered == t.peer.hist)
  {
    InitInv(init);
    hide Init, Run, NeverWraps, SideInv, Handshake, Truthful;
    RunKeepsInv(init, steps);
  }

  /** m_TotalPacketsReceived is one plus the number of packets queued after the
      player joined, modulo 2^32, in every run: the join request is the first of the
      delivered ones. */
  lemma JoinCounted(init: System, steps: seq<Step>)
    requires Init(init) && Run(init, steps).Some?
    ensures var t := Run(init, steps).value;
      t.server.delivered != [] && t.server.delivered[0] == init.peer.hist[0]
        && t.server.received == ToUInt32(1 + |t.server.delivered[1..]|)
  {
    hide Run, ToUInt32;
    CountersAndBuffers(init, steps);
    HistoryGrows(init, steps);
  }

  /** Dropping the connection and coming back: the peer drops its socket, opens a
      new one, reads the answer, replays, and both paths drain. */
  predicate CanRecover(s: System) {
    && Inv(s) && s.server.buffering && s.peer.buffering
    && s.server.unbuffered <= |s.peer.delivered| && s.peer.unbuffered <= |s.server.delivered|
    && SameEpoch(|s.server.hist|, s.server.buffer, |s.peer.delivered|)
    && SameEpoch(|s.peer.hist|, s.peer.buffer, |s.server.delivered|)
  }

  predicate SameHistories(s: System, t: System) {
    t.server.hist == s.server.hist && t.peer.hist == s.peer.hist
  }

  predicate PeerMayReplay(s: System) {
    s.awaiting && s.peer.open && SameEpoch(|s.peer.hist|, s.peer.buffer, |s.server.delivered|) && s.peer.acks == []
  }

  function Reopen(s: System): (t: System)
    requires CanRecover(s)
    ensures Inv(t) && PeerMayReplay(t) && SameHistories(s, t)
  {
    hide Inv, Trim, SameEpoch;
    StepKeepsInv(s, PeerDrops);
    var dropped := Apply(s, PeerDrops);
    StepKeepsInv(dropped, Reconnect);
    Apply(dropped, Reconnect)
  }

  function ReadAnswer(s: System): (t: System)
    requires Inv(s) && PeerMayReplay(s)
    ensures Inv(t) && PeerMayReplay(t) && |t.peer.recvBuffer| >= 8 && SameHistories(s, t)
  {
    HandshakeBytes(s);
    hide Inv, SameEpoch;
    StepKeepsInv(s, ToPeer(|s.peer.wire|));
    Apply(s, ToPeer(|s.peer.wire|))
  }

  function Resume(s: System): (t: System)
    requires Inv(s) && PeerMayReplay(s) && |s.peer.recvBuffer| >= 8
    ensures Inv(t) && !t.awaiting && t.peer.open && t.server.open && SameHistories(s, t)
    ensures t.peer.acks == [] && t.server.acks == []
  {
    HandshakeBytes(s);
    hide Inv, Trim, SameEpoch;
    StepKeepsInv(s, PeerResumes);
    Apply(s, PeerResumes)
  }

  lemma HandshakeBytes(s: System)
    requires Inv(s) && s.awaiting && s.peer.open
    ensures |s.peer.recvBuffer + s.peer.wire| >= 8 && s.server.acks == []
  {
    hide Flow, SideInv, ReconnectPacket;
  }

  lemma NoAcksSafe(y: Side, k: nat)
    requires y.acks == [] && k <= |y.wire|
    ensures NextAcks(y, k) == [] && TrimsSafe(|y.hist|, y.buffer, NextAcks(y, k))
  {
  }

  function DrainPeer(s: System): (t: System)
    requires Inv(s) && !s.awaiting && s.peer.acks == []
    ensures Inv(t) && !t.awaiting && SameHistories(s, t)
    ensures t.server == s.server && t.peer == Take(s.peer, |s.peer.wire|)
  {
    hide Inv, Take, TrimsSafe, NextAcks;
    NoAcksSafe(s.peer, |s.peer.wire|);
    TakeKeepsOpen(s.peer, |s.peer.wire|);
    StepKeepsInv(s, ToPeer(|s.peer.wire|));
    Apply(s, ToPeer(|s.peer.wire|))
  }

  function DrainServer(s: System): (t: System)
    requires Inv(s) && !s.awaiting && s.server.acks == []
    ensures Inv(t) && !t.awaiting && SameHistories(s, t)
    ensures t.peer == s.peer && t.server == Take(s.server, |s.server.wire|)
  {
    hide Inv, Take, TrimsSafe, NextAcks;
    NoAcksSafe(s.server, |s.server.wire|);
    TakeKeepsOpen(s.server, |s.server.wire|);
    StepKeepsInv(s, ToServer(|s.server.wire|));
    Apply(s, ToServer(|s.server.wire|))
  }

  /** After a reconnect nothing is missing on either side, whatever was lost with
      the old connection. */
  lemma RecoveryCompletes(s: System)
    requires CanRecover(s)
    ensures var t := DrainServer(DrainPeer(Resume(ReadAnswer(Reopen(s)))));
      t.peer.delivered == s.server.hist && t.server.delivered == s.peer.hist
  {
    hide Reopen, ReadAnswer, Resume, CanRecover, DrainPeer, DrainServer, Take, Inv;
    var resumed := Resume(ReadAnswer(Reopen(s)));
    var t := DrainServer(DrainPeer(resumed));
    TakeKeepsOpen(resumed.peer, |resumed.peer.wire|);
    TakeKeepsOpen(resumed.server, |resumed.server.wire|);
    InvFlows(t);
    DrainedSide(t.server.hist, resumed.peer, |t.server.delivered|);
    DrainedSide(t.peer.hist, resumed.server, |t.peer.delivered|);
  }

  lemma InvFlows(t: System)
    requires Inv(t) && !t.awaiting
    ensures Flow(t.server.hist, t.peer.delivered, t.peer.open, t.peer.recvBuffer + t.peer.wire, t.peer.acks,
                 |t.server.delivered|)
    ensures Flow(t.peer.hist, t.server.delivered, t.server.open, t.server.recvBuffer + t.server.wire, t.server.acks,
                 |t.peer.delivered|)
  {
    hide Flow, SideInv;
  }

  lemma DrainedSide(hist: seq<seq<byte>>, y: Side, confirmed: nat)
    requires var t := Take(y, |y.wire|);
      y.open && Flow(hist, t.delivered, true, t.recvBuffer + t.wire, t.acks, confirmed)
    ensures Take(y, |y.wire|).delivered == hist
  {
    hide AckAll, Truthful;
    var t := Take(y, |y.wire|);
    RestIsStuck(y.recvBuffer + y.wire[..|y.wire|]);
    assert t.recvBuffer + t.wire == t.recvBuffer;
  }
}
