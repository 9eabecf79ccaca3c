/** The extraction loops of brtServer/server.cpp, one queue for all clients and one
    for all bots, and the pass over the users that works the client queue off. */
module ServerPackets {
  import opened Bytes
  import opened ClientQueue
  import opened Framing
  import opened Sequences
  import opened Sockets

  lemma TaggedStep<T>(queue: seq<Incoming<T>>, p: CommandPacket, packets: seq<CommandPacket>, from: T)
    ensures queue + Tagged([p] + packets, from) == (queue + [Incoming(p, from)]) + Tagged(packets, from)
  {
  }

  class Server {
    var packets: seq<Incoming<TcpSocket>>
    var botsPackets: seq<Incoming<TcpSocket>>
    var users: seq<TcpSocket>
    // what has been given to the packet handler, and for which user
    var handled: seq<Handled<TcpSocket>>
    // all users there have ever been
    ghost var seen: set<TcpSocket>

    constructor ()
      ensures Valid() && View() == NoClients() && users == [] && botsPackets == []
    {
      packets, botsPackets, users, handled, seen := [], [], [], [], {};
      new;
      assert View().buffers == map[];
    }

    /** An incomplete packet is waited for; a malformed one is an error. */
    method ExtractClientPackets(socket: TcpSocket) returns (ok: bool)
      modifies this`packets, socket
      ensures var x := Extract(CLIENT_HEADERS, old(socket.recvBuffer));
        && packets == old(packets) + Tagged(x.packets, socket)
        && socket.recvBuffer == x.rest && socket.sendBuffer == old(socket.sendBuffer)
        && ok == (x.outcome == Waiting)
    {
      hide Tagged;
      var bytes := socket.recvBuffer;
      ghost var x := Extract(CLIENT_HEADERS, bytes);
      while |bytes| >= 4
        invariant socket.recvBuffer == bytes && socket.sendBuffer == old(socket.sendBuffer)
        invariant packets + Tagged(Extract(CLIENT_HEADERS, bytes).packets, socket)
          == old(packets) + Tagged(x.packets, socket)
        invariant Extract(CLIENT_HEADERS, bytes).rest == x.rest
        invariant Extract(CLIENT_HEADERS, bytes).outcome == x.outcome
        decreases |bytes|
      {
        if bytes[0] == PUB_HEADER_CONSTANT || bytes[0] == W3GS_HEADER_CONSTANT {
          var length := U16At(bytes, 2);
          if length >= 4 {
            if |bytes| >= length {
              TaggedStep(packets, ToPacket(bytes[..length]), Extract(CLIENT_HEADERS, bytes[length..]).packets, socket);
              packets := packets + [Incoming(CommandPacket(bytes[0], bytes[1], bytes[..length]), socket)];
              socket.recvBuffer := socket.recvBuffer[length..];
              bytes := bytes[length..];
            } else {
              TaggedNothing(packets, socket);
              return true;
            }
          } else {
            TaggedNothing(packets, socket);
            return false;
          }
        } else {
          TaggedNothing(packets, socket);
          return false;
        }
      }
      TaggedNothing(packets, socket);
      return true;
    }

    /** Here an incomplete packet is an error too. */
    method ExtractBotsPackets(socket: TcpSocket) returns (ok: bool)
      modifies this`botsPackets, socket
      ensures var x := Extract(BOT_HEADERS, old(socket.recvBuffer));
        && botsPackets == old(botsPackets) + Tagged(x.packets, socket)
        && socket.recvBuffer == x.rest && socket.sendBuffer == old(socket.sendBuffer)
        && ok == BotsAccept(old(socket.recvBuffer))
    {
      hide Tagged;
      var bytes := socket.recvBuffer;
      ghost var x := Extract(BOT_HEADERS, bytes);
      while |bytes| >= 4
        invariant socket.recvBuffer == bytes && socket.sendBuffer == old(socket.sendBuffer)
        invariant botsPackets + Tagged(Extract(BOT_HEADERS, bytes).packets, socket)
          == old(botsPackets) + Tagged(x.packets, socket)
        invariant Extract(BOT_HEADERS, bytes).rest == x.rest
        invariant Extract(BOT_HEADERS, bytes).outcome == x.outcome
        decreases |bytes|
      {
        if bytes[0] == PUB_HEADER_CONSTANT || bytes[0] == W3GS_HEADER_CONSTANT || bytes[0] == R_PROXY_CONSTANT {
          var length := U16At(bytes, 2);
          if length >= 4 {
            if |bytes| >= length {
              TaggedStep(botsPackets, ToPacket(bytes[..length]), Extract(BOT_HEADERS, bytes[length..]).packets, socket);
              botsPackets := botsPackets + [Incoming(CommandPacket(bytes[0], bytes[1], bytes[..length]), socket)];
              socket.recvBuffer := socket.recvBuffer[length..];
              bytes := bytes[length..];
            } else {
              TaggedNothing(botsPackets, socket);
              return false;
            }
          } else {
            TaggedNothing(botsPackets, socket);
            return false;
          }
        } else {
          TaggedNothing(botsPackets, socket);
          return false;
        }
      }
      TaggedNothing(botsPackets, socket);
      return true;
    }

    // ----- the pass over the users -----

    /** The users are different sockets, all of them seen. */
    ghost predicate Valid()
      reads this
    {
      (forall i, j | 0 <= i < j < |users| :: users[i] != users[j]) && forall u | u in users :: u in seen
    }

    /** The state that the pass is about. */
    ghost function View(): Clients<TcpSocket>
      reads this, users
    {
      Clients(map u | u in users :: u.recvBuffer, packets, handled, seen)
    }

    /** A connection has been accepted. */
    method Accept(socket: TcpSocket)
      requires Valid() && socket !in seen && socket.recvBuffer == []
      modifies this`users, this`seen
      ensures Valid() && users == old(users) + [socket]
      ensures Enabled(old(View()), Join(socket)) && View() == Apply(old(View()), Join(socket))
    {
      users, seen := users + [socket], seen + {socket};
      assert View().buffers == Apply(old(View()), Join(socket)).buffers;
    }

    /** Whoever is visited is taken for the sender of everything in the queue. */
    method ProcessClientPackets(usr: TcpSocket)
      modifies this`packets, this`handled
      ensures packets == [] && handled == old(handled) + HandledFor(old(packets), usr)
    {
      hide HandledFor;
      while packets != []
        invariant handled + HandledFor(packets, usr) == old(handled) + HandledFor(old(packets), usr)
        decreases |packets|
      {
        HandledStep(handled, packets, usr);
        var packet := packets[0];
        packets := packets[1..];
        handled := handled + [Handled(packet, usr)];
      }
      HandledNothing(handled, usr);
    }

    /** What has arrived is extracted and, unless it is malformed, processed. */
    method ReadUser(usr: TcpSocket, bytes: seq<byte>) returns (stays: bool)
      requires usr in users
      modifies this`packets, this`handled, usr
      ensures var before := old(View());
        var x := Extract(CLIENT_HEADERS, before.buffers[usr] + bytes);
        var queue := before.queue + Tagged(x.packets, usr);
        && stays == (x.outcome == Waiting) && View().buffers == before.buffers[usr := x.rest]
        && packets == (if stays then [] else queue)
        && handled == (if stays then before.handled + HandledFor(queue, usr) else before.handled)
    {
      hide Extract, Tagged, HandledFor;
      usr.recvBuffer := usr.recvBuffer + bytes;
      stays := ExtractClientPackets(usr);
      if stays {
        ProcessClientPackets(usr);
      }
    }

    method EraseUser(i: nat)
      requires Valid() && i < |users|
      modifies this`users
      ensures Valid() && users == old(users)[..i] + old(users)[i + 1..]
      ensures View().buffers == old(View()).buffers - {old(users)[i]}
    {
      users := users[..i] + users[i + 1..];
      ErasedUser(old(users), i);
    }

    /** One turn: a user who is gone, or who sends a malformed packet, is erased from
        the list; otherwise what is in the queue is processed. */
    method VisitUser(i: nat, arrival: Arrival) returns (stays: bool)
      requires Valid() && i < |users|
      modifies this`packets, this`users, this`handled, users[i]
      ensures Valid() && seen == old(seen)
      ensures users == if stays then old(users) else old(users)[..i] + old(users)[i + 1..]
      ensures Enabled(old(View()), Visit(old(users)[i], arrival))
      ensures View() == Apply(old(View()), Visit(old(users)[i], arrival))
    {
      hide Extract, Tagged, HandledFor;
      ghost var before, usr := View(), users[i];
      stays := false;
      if arrival.Chunk? {
        stays := ReadUser(users[i], arrival.bytes);
        UpdatedAndErased(before.buffers, usr, View().buffers[usr]);
      }
      if !stays {
        EraseUser(i);
      }
    }

    /** One pass over the list. arrivals says what each user's turn brings. */
    method Pass(arrivals: seq<Arrival>)
      requires Valid() && |arrivals| == |users|
      modifies this`packets, this`users, this`handled, users
      ensures Valid() && seen == old(seen)
      ensures Possible(old(View()), Visits(old(users), arrivals))
      ensures View() == Run(old(View()), Visits(old(users), arrivals))
    {
      hide Apply, Enabled, Run, Possible, Visits;
      ghost var start, all, visits := View(), users, Visits(users, arrivals);
      VisitsAre(users, arrivals);
      NothingVisited(start);
      var i := 0;
      for n := 0 to |arrivals|
        invariant Valid() && seen == old(seen) && i <= |users| && users[i..] == all[n..]
        invariant forall u | u in users :: u in all
        invariant Possible(start, visits[..n]) && View() == Run(start, visits[..n])
      {
        AfterTurn(all, users, i, n);
        var stays := VisitUser(i, arrivals[n]);
        RunSnoc(start, visits[..n], visits[n]);
        TakeOneMore(visits, n);
        if stays {
          i := i + 1;
        }
      }
      assert visits[..|arrivals|] == visits;
    }
  }

  lemma TaggedNothing<T>(queue: seq<Incoming<T>>, from: T)
    ensures queue + Tagged([], from) == queue
  {
  }

  function Visits<T>(users: seq<T>, arrivals: seq<Arrival>): seq<Event<T>>
    requires |arrivals| == |users|
  {
    seq(|users|, i requires 0 <= i < |users| => Visit(users[i], arrivals[i]))
  }

  lemma VisitsAre<T>(users: seq<T>, arrivals: seq<Arrival>)
    requires |arrivals| == |users|
    ensures var v := Visits(users, arrivals);
      |v| == |users| && forall i | 0 <= i < |users| :: v[i] == Visit(users[i], arrivals[i])
  {
  }

  /** Whether the user visited stays or goes, the others of the pass come next. */
  lemma AfterTurn<T>(all: seq<T>, users: seq<T>, i: nat, n: nat)
    requires i <= |users| && n < |all| && users[i..] == all[n..]
    ensures i < |users| && users[i] == all[n] && users[i + 1..] == all[n + 1..]
    ensures (users[..i] + users[i + 1..])[i..] == all[n + 1..]
    ensures forall u | u in users[..i] + users[i + 1..] :: u in users
  {
    assert users[i..][0] == all[n..][0];
    assert users[i + 1..] == users[i..][1..] == all[n..][1..] == all[n + 1..];
    CutSecond(users[..i], users[i + 1..], 0);
  }

  lemma HandledStep<T>(handled: seq<Handled<T>>, queue: seq<Incoming<T>>, user: T)
    requires queue != []
    ensures handled + HandledFor(queue, user) == handled + [Handled(queue[0], user)] + HandledFor(queue[1..], user)
  {
    ConcatAssociative(handled, [Handled(queue[0], user)], HandledFor(queue[1..], user));
  }

  lemma HandledNothing<T>(handled: seq<Handled<T>>, user: T)
    ensures handled + HandledFor([], user) == handled
  {
  }

  lemma NothingVisited<T>(s: Clients<T>)
    ensures Possible(s, []) && Run(s, []) == s
  {
  }

  lemma UpdatedAndErased<T>(buffers: map<T, seq<byte>>, user: T, bytes: seq<byte>)
    ensures buffers[user := bytes] - {user} == buffers - {user}
  {
  }

  lemma ErasedUser<T>(users: seq<T>, i: nat)
    requires i < |users| && forall j, k | 0 <= j < k < |users| :: users[j] != users[k]
    ensures var others := users[..i] + users[i + 1..];
      && (forall j, k | 0 <= j < k < |others| :: others[j] != others[k])
      && forall u :: u in others <==> u in users && u != users[i]
  {
  }
}
