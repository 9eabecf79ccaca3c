/** The one queue that brtServer/server.cpp keeps for all its clients. A pass visits
    the users one by one: what has arrived is extracted into the queue, a user who
    sent something malformed is erased while the packets stay, and otherwise the
    whole queue is handled for the user visited, whoever sent the packets. */
module ClientQueue {
  import opened Bytes
  import opened Framing
  import opened Sequences

  datatype Incoming<T> = Incoming(packet: CommandPacket, from: T)

  /** A packet and the user for whom it was handled. */
  datatype Handled<T> = Handled(incoming: Incoming<T>, user: T)

  /** What a user's turn brings: some bytes, or the end of a user who timed out or
      whose socket is broken, before anything is read. */
  datatype Arrival = Chunk(bytes: seq<byte>) | Gone

  datatype Event<T> = Join(client: T) | Visit(client: T, arrival: Arrival)

  /** The unread bytes of every connected user, the queue, what has been handled,
      and all users there have ever been. */
  datatype Clients<T> = Clients(buffers: map<T, seq<byte>>, queue: seq<Incoming<T>>, handled: seq<Handled<T>>,
                                seen: set<T>)

  function Tagged<T>(packets: seq<CommandPacket>, from: T): seq<Incoming<T>> {
    if packets == [] then [] else [Incoming(packets[0], from)] + Tagged(packets[1..], from)
  }

  function HandledFor<T>(queue: seq<Incoming<T>>, user: T): seq<Handled<T>> {
    if queue == [] then [] else [Handled(queue[0], user)] + HandledFor(queue[1..], user)
  }

  predicate Enabled<T>(s: Clients<T>, e: Event<T>) {
    match e
    case Join(c) => c !in s.seen
    case Visit(c, _) => c in s.buffers
  }

  function Apply<T>(s: Clients<T>, e: Event<T>): Clients<T>
    requires Enabled(s, e)
  {
    match e
    case Join(c) => s.(buffers := s.buffers[c := []], seen := s.seen + {c})
    case Visit(c, Gone) => s.(buffers := s.buffers - {c})
    case Visit(c, Chunk(bytes)) =>
      var x := Extract(CLIENT_HEADERS, s.buffers[c] + bytes);
      var queue := s.queue + Tagged(x.packets, c);
      if x.outcome == Waiting then
        s.(buffers := s.buffers[c := x.rest], queue := [], handled := s.handled + HandledFor(queue, c))
      else s.(buffers := s.buffers - {c}, queue := queue)
  }

  predicate Possible<T>(s: Clients<T>, events: seq<Event<T>>)
    decreases |events|
  {
    events == [] || (Enabled(s, events[0]) && Possible(Apply(s, events[0]), events[1..]))
  }

  function Run<T>(s: Clients<T>, events: seq<Event<T>>): Clients<T>
    requires Possible(s, events)
    decreases |events|
  {
    if events == [] then s else Run(Apply(s, events[0]), events[1..])
  }

  /** Passes follow each other, each from where the one before left the queue. */
  lemma {:induction false} RunConcat<T>(s: Clients<T>, a: seq<Event<T>>, b: seq<Event<T>>)
    requires Possible(s, a) && Possible(Run(s, a), b)
    ensures Possible(s, a + b) && Run(s, a + b) == Run(Run(s, a), b)
    decreases |a|
  {
    hide Apply, Enabled;
    if a == [] {
      NothingBefore(b);
    } else {
      Front(a, b);
      RunConcat(Apply(s, a[0]), a[1..], b);
    }
  }

  lemma RunSnoc<T>(s: Clients<T>, events: seq<Event<T>>, e: Event<T>)
    requires Possible(s, events) && Enabled(Run(s, events), e)
    ensures Possible(s, events + [e]) && Run(s, events + [e]) == Apply(Run(s, events), e)
  {
    RunOne(Run(s, events), e);
    hide Run, Possible;
    RunConcat(s, events, [e]);
  }

  lemma RunOne<T>(s: Clients<T>, e: Event<T>)
    requires Enabled(s, e)
    ensures Possible(s, [e]) && Run(s, [e]) == Apply(s, e)
  {
    hide Apply, Enabled;
    assert Possible(Apply(s, e), []);
  }

  function NoClients<T>(): Clients<T> {
    Clients(map[], [], [], {})
  }

  // ----- who is taken for the sender -----

  /** The user visited is not erased. */
  predicate Stays<T>(s: Clients<T>, e: Event<T>)
    requires Enabled(s, e)
  {
    e.Visit? && e.arrival.Chunk? && Extract(CLIENT_HEADERS, s.buffers[e.client] + e.arrival.bytes).outcome == Waiting
  }

  /** The user visited is erased for a malformed packet that stands behind others. */
  predicate LeavesPackets<T>(s: Clients<T>, e: Event<T>)
    requires Enabled(s, e)
  {
    && e.Visit? && e.arrival.Chunk?
    && var x := Extract(CLIENT_HEADERS, s.buffers[e.client] + e.arrival.bytes);
       x.outcome != Waiting && x.packets != []
  }

  predicate NoneStays<T>(s: Clients<T>, events: seq<Event<T>>)
    requires Possible(s, events)
    decreases |events|
  {
    events == [] || (!Stays(s, events[0]) && NoneStays(Apply(s, events[0]), events[1..]))
  }

  /** No user who leaves packets behind is followed by one who stays. */
  predicate Tidy<T>(s: Clients<T>, events: seq<Event<T>>)
    requires Possible(s, events)
    decreases |events|
  {
    events == [] ||
    var t := Apply(s, events[0]);
    (LeavesPackets(s, events[0]) ==> NoneStays(t, events[1..])) && Tidy(t, events[1..])
  }

  /** Every packet was handled for the user who sent it. */
  ghost predicate OwnOnly<T>(handled: seq<Handled<T>>) {
    forall i | 0 <= i < |handled| :: handled[i].incoming.from == handled[i].user
  }

  /** The queue holds packets of erased users only, and no complete packet is unread. */
  ghost predicate Sound<T>(s: Clients<T>) {
    && s.buffers.Keys <= s.seen
    && (forall i | 0 <= i < |s.queue| :: s.queue[i].from in s.seen && s.queue[i].from !in s.buffers)
    && forall c | c in s.buffers :: !StartsWithFrame(CLIENT_HEADERS, s.buffers[c])
  }

  lemma {:induction false} TaggedFrom<T>(packets: seq<CommandPacket>, from: T)
    ensures |Tagged(packets, from)| == |packets|
    ensures forall i | 0 <= i < |packets| :: Tagged(packets, from)[i] == Incoming(packets[i], from)
  {
    if packets != [] {
      TaggedFrom(packets[1..], from);
    }
  }

  lemma {:induction false} HandledForUser<T>(queue: seq<Incoming<T>>, user: T)
    ensures |HandledFor(queue, user)| == |queue|
    ensures forall i | 0 <= i < |queue| :: HandledFor(queue, user)[i] == Handled(queue[i], user)
  {
    if queue != [] {
      HandledForUser(queue[1..], user);
    }
  }

  lemma StepKeepsSound<T>(s: Clients<T>, e: Event<T>)
    requires Sound(s) && Enabled(s, e)
    ensures Sound(Apply(s, e))
  {
    hide Extract, StartsWithFrame, Tagged, HandledFor;
    match e
    case Join(c) => EmptyIsNoFrame();
    case Visit(c, Gone) =>
    case Visit(c, Chunk(bytes)) =>
      ExtractSound(CLIENT_HEADERS, s.buffers[c] + bytes);
      TaggedFrom(Extract(CLIENT_HEADERS, s.buffers[c] + bytes).packets, c);
  }

  lemma EmptyIsNoFrame()
    ensures !StartsWithFrame(CLIENT_HEADERS, [])
  {
  }

  /** At a visit that the user survives, everything is the user's own exactly when
      nobody had left anything. */
  lemma OwnAtVisit<T>(s: Clients<T>, c: T, bytes: seq<byte>)
    requires Sound(s) && c in s.buffers && Stays(s, Visit(c, Chunk(bytes)))
    ensures OwnOnly(Apply(s, Visit(c, Chunk(bytes))).handled) <==> OwnOnly(s.handled) && s.queue == []
  {
    hide Extract, StartsWithFrame, Tagged, HandledFor;
    var ps := Extract(CLIENT_HEADERS, s.buffers[c] + bytes).packets;
    var queue := s.queue + Tagged(ps, c);
    TaggedFrom(ps, c);
    HandledForUser(queue, c);
    var t := Apply(s, Visit(c, Chunk(bytes)));
    assert t.handled == s.handled + HandledFor(queue, c);
    assert forall i | 0 <= i < |s.handled| :: t.handled[i] == s.handled[i];
    if s.queue != [] {
      assert t.handled[|s.handled|] == Handled(s.queue[0], c);
    }
  }

  lemma QueueAtVisit<T>(s: Clients<T>, e: Event<T>)
    requires Enabled(s, e) && !Stays(s, e)
    ensures Apply(s, e).handled == s.handled
    ensures Apply(s, e).queue == [] <==> s.queue == [] && !LeavesPackets(s, e)
  {
    hide Extract, HandledFor;
  }

  /** Exactly when every packet is handled for its sender, from any state, over any
      number of passes: no user who leaves packets behind is followed by one who
      stays, and if packets of erased users are in the queue already, nobody stays. */
  lemma {:induction false} OwnExact<T>(s: Clients<T>, events: seq<Event<T>>)
    requires Sound(s) && Possible(s, events)
    ensures OwnOnly(Run(s, events).handled)
      <==> OwnOnly(s.handled) && Tidy(s, events) && (s.queue == [] || NoneStays(s, events))
    decreases |events|
  {
    hide Sound, OwnOnly, Apply, Enabled, Stays, LeavesPackets;
    if events != [] {
      StepKeepsSound(s, events[0]);
      OwnExact(Apply(s, events[0]), events[1..]);
      if Stays(s, events[0]) {
        StayingVisit(s, events[0]);
      } else {
        QueueAtVisit(s, events[0]);
      }
    }
  }

  lemma StayingVisit<T>(s: Clients<T>, e: Event<T>)
    requires Sound(s) && Enabled(s, e) && Stays(s, e)
    ensures !LeavesPackets(s, e) && Apply(s, e).queue == []
    ensures OwnOnly(Apply(s, e).handled) <==> OwnOnly(s.handled) && s.queue == []
  {
    hide Extract, Sound, HandledFor, OwnOnly;
    OwnAtVisit(s, e.client, e.arrival.bytes);
  }

  /** Client 1 sends one packet and something malformed; client 2, who sends nothing,
      is taken for its sender. */
  lemma HandledForAnother()
    ensures var events := [Join(1), Join(2), Visit(1, Chunk([16, 7, 4, 0, 0, 0, 0, 0])), Visit(2, Chunk([]))];
      && Possible(NoClients(), events)
      && Run(NoClients(), events).handled == [Handled(Incoming(ToPacket([16, 7, 4, 0]), 1), 2)]
  {
    WitnessStates();
    hide Apply, Enabled;
    var s0 := NoClients<int>();
    var s1 := Apply(s0, Join(1));
    var s2 := Apply(s1, Join(2));
    var e3, e4 := Visit(1, Chunk([16, 7, 4, 0, 0, 0, 0, 0])), Visit(2, Chunk([]));
    var s3 := Apply(s2, e3);
    RunOne(s3, e4);
    RunFront(s2, e3, [e4]);
    RunFront(s1, Join(2), [e3, e4]);
    RunFront(s0, Join(1), [Join(2), e3, e4]);
  }

  lemma RunFront<T>(s: Clients<T>, e: Event<T>, events: seq<Event<T>>)
    requires Enabled(s, e) && Possible(Apply(s, e), events)
    ensures Possible(s, [e] + events) && Run(s, [e] + events) == Run(Apply(s, e), events)
  {
    hide Apply, Enabled;
    assert ([e] + events)[1..] == events;
  }

  lemma WitnessStates()
    ensures Enabled(NoClients<int>(), Join(1)) && Enabled(Apply(NoClients<int>(), Join(1)), Join(2))
    ensures var s2 := Apply(Apply(NoClients<int>(), Join(1)), Join(2));
      var e3, e4 := Visit(1, Chunk([16, 7, 4, 0, 0, 0, 0, 0])), Visit(2, Chunk([]));
      && Enabled(s2, e3) && Enabled(Apply(s2, e3), e4)
      && Apply(Apply(s2, e3), e4).handled == [Handled(Incoming(ToPacket([16, 7, 4, 0]), 1), 2)]
  {
    var p := ToPacket([16, 7, 4, 0]);
    WitnessExtracted();
    assert Apply(Apply(NoClients<int>(), Join(1)), Join(2)) == Clients(map[1 := [], 2 := []], [], [], {1, 2});
    WitnessErased(p);
    WitnessMistaken(p);
  }

  lemma WitnessErased(p: CommandPacket)
    requires Extract(CLIENT_HEADERS, [16, 7, 4, 0, 0, 0, 0, 0]).packets == [p]
    requires Extract(CLIENT_HEADERS, [16, 7, 4, 0, 0, 0, 0, 0]).outcome != Waiting
    ensures Apply(Clients(map[1 := [], 2 := []], [], [], {1, 2}), Visit(1, Chunk([16, 7, 4, 0, 0, 0, 0, 0])))
      == Clients(map[2 := []], [Incoming(p, 1)], [], {1, 2})
  {
    hide Extract;
    NothingBefore<byte>([16, 7, 4, 0, 0, 0, 0, 0]);
    var both: map<int, seq<byte>> := map[1 := [], 2 := []];
    assert both - {1} == map[2 := []];
    assert Tagged([p], 1) == [Incoming(p, 1)];
  }

  lemma WitnessMistaken(p: CommandPacket)
    requires Extract(CLIENT_HEADERS, [] + []) == Extraction([], [], Waiting)
    ensures Apply(Clients(map[2 := []], [Incoming(p, 1)], [], {1, 2}), Visit(2, Chunk([])))
      == Clients(map[2 := []], [], [Handled(Incoming(p, 1), 2)], {1, 2})
  {
    hide Extract;
    NothingBehind([Incoming(p, 1)]);
    assert HandledFor([Incoming(p, 1)], 2) == [Handled(Incoming(p, 1), 2)];
  }

  lemma WitnessExtracted()
    ensures var x := Extract(CLIENT_HEADERS, [16, 7, 4, 0, 0, 0, 0, 0]);
      x.packets == [ToPacket([16, 7, 4, 0])] && x.outcome != Waiting
    ensures Extract(CLIENT_HEADERS, [] + []) == Extraction([], [], Waiting)
  {
    ExtractFront(CLIENT_HEADERS, [16, 7, 4, 0], [0, 0, 0, 0]);
    var sent: seq<byte> := [16, 7, 4, 0, 0, 0, 0, 0];
    assert [16, 7, 4, 0] + [0, 0, 0, 0] == sent;
  }

  // ----- nothing is lost -----

  /** The packets of one client in the queue. */
  function Of<T(==)>(queue: seq<Incoming<T>>, client: T): seq<CommandPacket> {
    if queue == [] then [] else (if queue[0].from == client then [queue[0].packet] else []) + Of(queue[1..], client)
  }

  /** The packets that a client sent, handled for whomever. */
  function SentBy<T(==)>(handled: seq<Handled<T>>, client: T): seq<CommandPacket> {
    if handled == [] then []
    else
      (if handled[0].incoming.from == client then [handled[0].incoming.packet] else []) + SentBy(handled[1..], client)
  }

  /** The packets handled for a client, sent by whomever. */
  function For<T(==)>(handled: seq<Handled<T>>, client: T): seq<CommandPacket> {
    if handled == [] then []
    else (if handled[0].user == client then [handled[0].incoming.packet] else []) + For(handled[1..], client)
  }

  function Read<T(==)>(e: Event<T>, client: T): seq<byte> {
    if e.Visit? && e.client == client && e.arrival.Chunk? then e.arrival.bytes else []
  }

  /** All bytes of a client that were read. */
  function BytesOf<T(==)>(events: seq<Event<T>>, client: T): seq<byte> {
    if events == [] then [] else Read(events[0], client) + BytesOf(events[1..], client)
  }

  lemma {:induction false} OfConcat<T>(a: seq<Incoming<T>>, b: seq<Incoming<T>>, client: T)
    ensures Of(a + b, client) == Of(a, client) + Of(b, client)
  {
    hide Of;
    OfFront(a, client);
    OfFront(a + b, client);
    if a == [] {
      NothingBefore(b);
      NothingBefore(Of(b, client));
    } else {
      Front(a, b);
      OfConcat(a[1..], b, client);
      ConcatAssociative(if a[0].from == client then [a[0].packet] else [], Of(a[1..], client), Of(b, client));
    }
  }

  lemma OfFront<T>(a: seq<Incoming<T>>, client: T)
    ensures Of(a, client) == if a == [] then []
      else (if a[0].from == client then [a[0].packet] else []) + Of(a[1..], client)
  {
  }

  lemma {:induction false} SentByConcat<T>(a: seq<Handled<T>>, b: seq<Handled<T>>, client: T)
    ensures SentBy(a + b, client) == SentBy(a, client) + SentBy(b, client)
  {
    hide SentBy;
    SentByFront(a, client);
    SentByFront(a + b, client);
    if a == [] {
      NothingBefore(b);
      NothingBefore(SentBy(b, client));
    } else {
      Front(a, b);
      SentByConcat(a[1..], b, client);
      ConcatAssociative(if a[0].incoming.from == client then [a[0].incoming.packet] else [], SentBy(a[1..], client),
                        SentBy(b, client));
    }
  }

  lemma SentByFront<T>(a: seq<Handled<T>>, client: T)
    ensures SentBy(a, client) == if a == [] then []
      else (if a[0].incoming.from == client then [a[0].incoming.packet] else []) + SentBy(a[1..], client)
  {
  }

  lemma {:induction false} SentByHandled<T>(queue: seq<Incoming<T>>, user: T, client: T)
    ensures SentBy(HandledFor(queue, user), client) == Of(queue, client)
  {
    if queue != [] {
      SentByHandled(queue[1..], user, client);
      assert HandledFor(queue, user)[1..] == HandledFor(queue[1..], user);
    }
  }

  lemma {:induction false} OfTagged<T>(packets: seq<CommandPacket>, from: T, client: T)
    ensures Of(Tagged(packets, from), client) == if from == client then packets else []
  {
    if packets != [] {
      OfTagged(packets[1..], from, client);
      var tagged := Tagged(packets, from);
      assert tagged[1..] == Tagged(packets[1..], from);
      HeadTail(packets);
    }
  }

  /** What has been handled of a client's packets, and what is still queued. */
  function All<T>(s: Clients<T>, client: T): seq<CommandPacket> {
    SentBy(s.handled, client) + Of(s.queue, client)
  }

  function Unread<T>(s: Clients<T>, client: T): seq<byte> {
    if client in s.buffers then s.buffers[client] else []
  }

  /** The packets that a visit extracts. */
  lemma AllAtVisit<T>(s: Clients<T>, c: T, bytes: seq<byte>, client: T)
    requires c in s.buffers
    ensures var x := Extract(CLIENT_HEADERS, s.buffers[c] + bytes);
      All(Apply(s, Visit(c, Chunk(bytes))), client) == All(s, client) + if c == client then x.packets else []
  {
    hide Extract, Of, SentBy, Tagged, HandledFor;
    var x := Extract(CLIENT_HEADERS, s.buffers[c] + bytes);
    var queue := s.queue + Tagged(x.packets, c);
    OfConcat(s.queue, Tagged(x.packets, c), client);
    OfTagged(x.packets, c, client);
    SentByConcat(s.handled, HandledFor(queue, c), client);
    SentByHandled(queue, c, client);
    OfNothing(client);
    ConcatAssociative(SentBy(s.handled, client), Of(s.queue, client), if c == client then x.packets else []);
  }

  lemma OfNothing<T>(client: T)
    ensures Of([], client) == [] && forall s: seq<CommandPacket> :: s + [] == s
  {
  }

  lemma {:induction false} NoMoreBytes<T>(s: Clients<T>, events: seq<Event<T>>, client: T)
    requires Possible(s, events) && client in s.seen && client !in s.buffers
    ensures BytesOf(events, client) == [] && client !in Run(s, events).buffers
    decreases |events|
  {
    if events != [] {
      NoMoreBytes(Apply(s, events[0]), events[1..], client);
    }
  }

  /** One event, given the bytes of the client that are read later. */
  lemma StepConserves<T>(s: Clients<T>, e: Event<T>, more: seq<byte>, client: T)
    requires Sound(s) && Enabled(s, e)
    requires e.Visit? && e.client == client && !Stays(s, e) ==> more == []
    ensures var t := Apply(s, e);
      var x := Extract(CLIENT_HEADERS, Unread(s, client) + (Read(e, client) + more));
      var y := Extract(CLIENT_HEADERS, Unread(t, client) + more);
      All(s, client) + x.packets == All(t, client) + y.packets
        && (e.Join? || e.client != client || Stays(s, e) ==> x.rest == y.rest)
  {
    hide Extract, StartsWithFrame, SentBy, Of;
    NothingBefore(more);
    var before := Unread(s, client);
    if e.client != client || e.Join? {
      if e.Visit? && e.arrival.Chunk? {
        hide All;
        AllAtVisit(s, e.client, e.arrival.bytes, client);
        NothingBehind(All(s, client));
      }
    } else if e.arrival.Gone? {
      ExtractCases(CLIENT_HEADERS, before);
      ExtractedNothing();
      NothingBehind(before);
    } else {
      hide All;
      var bytes := e.arrival.bytes;
      AllAtVisit(s, client, bytes, client);
      ConcatAssociative(before, bytes, more);
      var x := Extract(CLIENT_HEADERS, before + bytes);
      if x.outcome == Waiting {
        ExtractSplit(CLIENT_HEADERS, before + bytes, more);
        ConcatAssociative(All(s, client), x.packets, Extract(CLIENT_HEADERS, x.rest + more).packets);
      } else {
        NothingBehind(before + bytes);
        ExtractedNothing();
        NothingBehind(All(s, client) + x.packets);
      }
    }
  }

  lemma NothingBehind<T>(a: seq<T>)
    ensures a + [] == a
  {
  }

  lemma ExtractedNothing()
    ensures Extract(CLIENT_HEADERS, [] + []) == Extraction([], [], Waiting)
  {
  }

  /** No packet is lost, doubled or reordered, for whomever it is handled. */
  lemma {:induction false} RunConserves<T>(s: Clients<T>, events: seq<Event<T>>, client: T)
    requires Sound(s) && Possible(s, events)
    ensures var x := Extract(CLIENT_HEADERS, Unread(s, client) + BytesOf(events, client));
      var end := Run(s, events);
      All(end, client) == All(s, client) + x.packets && (client in end.buffers ==> end.buffers[client] == x.rest)
    decreases |events|
  {
    hide Extract, StartsWithFrame, All, Sound, Apply, Enabled;
    if events == [] {
      UnreadIsRest(s, client);
    } else {
      var e := events[0];
      StepKeepsSound(s, e);
      RunConserves(Apply(s, e), events[1..], client);
      if e.Visit? && e.client == client && !Stays(s, e) {
        Erased(s, e);
        NoMoreBytes(Apply(s, e), events[1..], client);
      }
      StepConserves(s, e, BytesOf(events[1..], client), client);
    }
  }

  lemma UnreadIsRest<T>(s: Clients<T>, client: T)
    requires Sound(s)
    ensures var x := Extract(CLIENT_HEADERS, Unread(s, client) + []);
      All(s, client) == All(s, client) + x.packets && (client in s.buffers ==> s.buffers[client] == x.rest)
  {
    hide Extract, StartsWithFrame, All;
    NothingBehind(Unread(s, client));
    NothingBehind(All(s, client));
    ExtractCases(CLIENT_HEADERS, Unread(s, client));
    EmptyIsNoFrame();
  }

  lemma Erased<T>(s: Clients<T>, e: Event<T>)
    requires Sound(s) && Enabled(s, e) && e.Visit? && !Stays(s, e)
    ensures e.client in Apply(s, e).seen && e.client !in Apply(s, e).buffers
  {
    hide Extract;
  }

  /** Over all passes, however the clients' turns, arrivals and ends are mixed and
      wherever TCP cuts: of every client's packets, those of one extraction from all
      that was read from it, each is handled once or still queued, in order. Every
      packet is handled for its sender if and only if no user who leaves packets
      behind is followed by one who stays; then what is handled for a client are
      those packets of its own. */
  lemma ClientsIndependent<T>(events: seq<Event<T>>, client: T)
    requires Possible(NoClients(), events)
    ensures var end := Run(NoClients(), events);
      var x := Extract(CLIENT_HEADERS, BytesOf(events, client));
      && SentBy(end.handled, client) + Of(end.queue, client) == x.packets
      && (client in end.buffers ==> Of(end.queue, client) == [] && end.buffers[client] == x.rest)
      && (OwnOnly(end.handled) <==> Tidy(NoClients(), events))
      && (Tidy(NoClients(), events) ==> For(end.handled, client) + Of(end.queue, client) == x.packets)
  {
    var start := NoClients<T>();
    assert Sound(start);
    hide Extract, Run, Possible, Tidy, Sound, OwnOnly, BytesOf;
    var end := Run(start, events);
    RunConserves(start, events, client);
    NothingBefore(BytesOf(events, client));
    NothingBefore(Extract(CLIENT_HEADERS, BytesOf(events, client)).packets);
    OwnExact(start, events);
    assert OwnOnly(start.handled) by { NothingIsOwn<T>(); }
    RunKeepsSound(start, events);
    ConnectedHasNoneQueued(end, client);
    if OwnOnly(end.handled) {
      OwnIsSent(end.handled, client);
    }
  }

  lemma NothingIsOwn<T>()
    ensures OwnOnly(NoClients<T>().handled)
  {
  }

  lemma {:induction false} RunKeepsSound<T>(s: Clients<T>, events: seq<Event<T>>)
    requires Sound(s) && Possible(s, events)
    ensures Sound(Run(s, events))
    decreases |events|
  {
    hide Sound, Apply, Enabled;
    if events != [] {
      StepKeepsSound(s, events[0]);
      RunKeepsSound(Apply(s, events[0]), events[1..]);
    }
  }

  lemma ConnectedHasNoneQueued<T>(s: Clients<T>, client: T)
    requires Sound(s)
    ensures client in s.buffers ==> Of(s.queue, client) == []
  {
    if client in s.buffers {
      NoneOf(s.queue, client);
    }
  }

  lemma {:induction false} NoneOf<T>(queue: seq<Incoming<T>>, client: T)
    requires forall i | 0 <= i < |queue| :: queue[i].from != client
    ensures Of(queue, client) == []
  {
    if queue != [] {
      NoneOf(queue[1..], client);
    }
  }

  lemma {:induction false} OwnIsSent<T>(handled: seq<Handled<T>>, client: T)
    requires OwnOnly(handled)
    ensures For(handled, client) == SentBy(handled, client)
  {
    if handled != [] {
      assert handled[0].incoming.from == handled[0].user;
      OwnIsSent(handled[1..], client);
    }
  }
}
