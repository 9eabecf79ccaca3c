/** Commands spread over several Redis servers: pipelined execution, MGET and
    SINTER of brtServer/redisclient.h. A connection answers its requests in order;
    what the servers compute is a parameter. */
module RedisCluster {
  import opened Bytes
  import opened RedisReply
  import opened Resp
  import RedisReader
  import opened Sequences

  type Command = seq<seq<byte>>

  /** A command and the key that chooses its server. */
  datatype Request = Request(args: Command, hashKey: seq<byte>)

  // ----- one server -----

  /** The requests in a byte string, as the server's parser takes them off. */
  function ParseAll(s: seq<byte>): seq<Command>
    decreases |s|
  {
    match ReadMultiBulk(s)
    case Failed(_, _) => []
    case Got(args, rest) => if |rest| < |s| then [args] + ParseAll(rest) else [args]
  }

  lemma {:induction false} ParseAllPrinted(commands: seq<Command>)
    requires AllPrintable(commands)
    ensures ParseAll(PrintCommands(commands)) == commands
    decreases |commands|
  {
    hide Printable, PrintCommand, ReadMultiBulk;
    if commands == [] {
      NothingToParse();
    } else {
      var rest := PrintCommands(commands[1..]);
      CommandRoundTrip(commands[0], rest);
      PrintedNonempty(commands[0]);
      ParseAllPrinted(commands[1..]);
      HeadTail(commands);
    }
  }

  lemma NothingToParse()
    ensures ReadMultiBulk([]) == Failed(ConnectionClosed, [])
  {
  }

  lemma PrintedNonempty(args: Command)
    ensures |PrintCommand(args)| > 0
  {
  }

  /** A server answering commands one after the other. */
  function Serve<S>(handle: (S, Command) -> (S, Answer), s: S, commands: seq<Command>): (S, seq<Answer>) {
    if commands == [] then (s, [])
    else
      var first := handle(s, commands[0]);
      var others := Serve(handle, first.0, commands[1..]);
      (others.0, [first.1] + others.1)
  }

  // ----- several servers -----

  function SocketOf(sockets: seq<int>, hasher: seq<byte> -> nat, key: seq<byte>): int
    requires sockets != []
  {
    if |sockets| == 1 then sockets[0] else sockets[hasher(key) % |sockets|]
  }

  /** The commands among requests that go to one socket, in order. */
  function OnSocket(route: seq<byte> -> int, requests: seq<Request>, socket: int): seq<Command> {
    if requests == [] then []
    else
      (if route(requests[0].hashKey) == socket then [requests[0].args] else []) + OnSocket(route, requests[1..], socket)
  }

  lemma {:induction false} OnSocketSnoc(route: seq<byte> -> int, requests: seq<Request>, r: Request, socket: int)
    ensures OnSocket(route, requests + [r], socket)
      == OnSocket(route, requests, socket) + if route(r.hashKey) == socket then [r.args] else []
  {
    hide OnSocket;
    OnSocketFront(route, requests, socket);
    OnSocketFront(route, requests + [r], socket);
    var last := if route(r.hashKey) == socket then [r.args] else [];
    if requests == [] {
      OnSocketOne(route, r, socket);
      NothingBefore([r]);
      NothingBefore(last);
    } else {
      Front(requests, [r]);
      OnSocketSnoc(route, requests[1..], r, socket);
      ConcatAssociative(if route(requests[0].hashKey) == socket then [requests[0].args] else [],
                        OnSocket(route, requests[1..], socket), last);
    }
  }

  lemma OnSocketFront(route: seq<byte> -> int, requests: seq<Request>, socket: int)
    ensures OnSocket(route, requests, socket)
      == if requests == [] then []
         else
           (if route(requests[0].hashKey) == socket then [requests[0].args] else [])
           + OnSocket(route, requests[1..], socket)
  {
  }

  lemma OnSocketOne(route: seq<byte> -> int, r: Request, socket: int)
    ensures OnSocket(route, [r], socket) == if route(r.hashKey) == socket then [r.args] else []
  {
  }

  /** Executing requests one at a time: the servers' states afterwards and the answer
      to each request. */
  function ExecAll<S>(handle: (S, Command) -> (S, Answer), route: seq<byte> -> int,
                      servers: map<int, S>, requests: seq<Request>): (r: (map<int, S>, seq<Answer>))
    requires forall key: seq<byte> :: route(key) in servers
    ensures |r.1| == |requests| && r.0.Keys == servers.Keys
    decreases |requests|
  {
    if requests == [] then (servers, [])
    else
      var k := route(requests[0].hashKey);
      var first := handle(servers[k], requests[0].args);
      var others := ExecAll(handle, route, servers[k := first.0], requests[1..]);
      (others.0, [first.1] + others.1)
  }

  /** The answers that come on one connection, in order. */
  function DueOn(route: seq<byte> -> int, requests: seq<Request>, answers: seq<Answer>, socket: int): seq<Answer>
    requires |answers| == |requests|
  {
    if requests == [] then []
    else
      (if route(requests[0].hashKey) == socket then [answers[0]] else [])
      + DueOn(route, requests[1..], answers[1..], socket)
  }

  /** The first answer on which the client throws, or past the last one. */
  function FirstThrown(answers: seq<Answer>): (n: nat)
    ensures n <= |answers| && (n < |answers| ==> Heard(answers[n]).Failure?)
    ensures forall i | 0 <= i < n :: Heard(answers[i]).Success?
  {
    if answers == [] || Heard(answers[0]).Failure? then 0 else 1 + FirstThrown(answers[1..])
  }

  /** A server says only what the protocol can carry. */
  ghost predicate Speaks<S(!new)>(handle: (S, Command) -> (S, Answer)) {
    forall s: S, c: Command :: Sayable(handle(s, c).1)
  }

  lemma {:induction false} ServeSpeaks<S(!new)>(handle: (S, Command) -> (S, Answer), s: S, commands: seq<Command>)
    requires Speaks(handle)
    ensures AllSayable(Serve(handle, s, commands).1)
    decreases |commands|
  {
    hide Sayable;
    if commands != [] {
      ServeSpeaks(handle, handle(s, commands[0]).0, commands[1..]);
    }
  }

  ghost predicate AllSayable(answers: seq<Answer>) {
    forall i | 0 <= i < |answers| :: Sayable(answers[i])
  }

  datatype Outcome = Done | Threw(error: Error)

  /** What a batch brings in: the replies heard before the client throws. */
  ghost predicate Obtained(answers: seq<Answer>, replies: seq<Reply>, outcome: Outcome) {
    var n := FirstThrown(answers);
    && |replies| == n && (forall i | 0 <= i < n :: Heard(answers[i]) == RedisReader.Success(replies[i]))
    && outcome == if n == |answers| then Done else Threw(Heard(answers[n]).error)
  }

  /** When the client has thrown, all answers behind that one are still to be read. */
  ghost predicate LeftBehind(route: seq<byte> -> int, requests: seq<Request>, answers: seq<Answer>,
                             due: map<int, seq<Answer>>)
    requires |requests| == |answers|
  {
    var n := FirstThrown(answers);
    n < |requests| ==> AllDue(route, requests[n + 1..], answers[n + 1..], due)
  }

  // ----- the answers a batch takes off the connections -----

  /** The answers that requests take from those waiting, up to one on which the client
      throws, and what is left. */
  function Taken(route: seq<byte> -> int, requests: seq<Request>, waiting: map<int, seq<Answer>>)
    : (seq<Answer>, map<int, seq<Answer>>)
    decreases |requests|
  {
    if requests == [] then ([], waiting)
    else
      var k := route(requests[0].hashKey);
      if k !in waiting || waiting[k] == [] then ([], waiting)
      else
        var next := waiting[k := waiting[k][1..]];
        if Heard(waiting[k][0]).Failure? then ([waiting[k][0]], next)
        else
          var others := Taken(route, requests[1..], next);
          ([waiting[k][0]] + others.0, others.1)
  }

  /** An answer is waiting for every one of the requests. */
  ghost predicate AllAnswered(route: seq<byte> -> int, requests: seq<Request>, waiting: map<int, seq<Answer>>) {
    forall k | k in waiting :: |OnSocket(route, requests, k)| <= |waiting[k]|
  }

  lemma TakenFront(route: seq<byte> -> int, requests: seq<Request>, waiting: map<int, seq<Answer>>)
    requires requests != [] && route(requests[0].hashKey) in waiting && AllAnswered(route, requests, waiting)
    ensures var k := route(requests[0].hashKey);
      waiting[k] != [] &&
      var next := waiting[k := waiting[k][1..]];
      var others := Taken(route, requests[1..], next);
      && AllAnswered(route, requests[1..], next)
      && Taken(route, requests, waiting) == if Heard(waiting[k][0]).Failure? then ([waiting[k][0]], next)
                                            else ([waiting[k][0]] + others.0, others.1)
  {
    hide Heard;
    var k := route(requests[0].hashKey);
    assert |OnSocket(route, requests, k)| <= |waiting[k]|;
    forall j | j in waiting
      ensures |OnSocket(route, requests[1..], j)| <= |waiting[k := waiting[k][1..]][j]|
    {
      OnSocketFront(route, requests, j);
      assert |OnSocket(route, requests, j)| <= |waiting[j]|;
    }
  }

  lemma TakenNone(route: seq<byte> -> int, waiting: map<int, seq<Answer>>)
    ensures Taken(route, [], waiting) == ([], waiting)
  {
  }

  /** On every connection the answers taken, followed by those left, are the answers
      that were waiting: none is lost, none is given twice, and their order is kept. */
  lemma {:induction false} TakenConserves(route: seq<byte> -> int, requests: seq<Request>,
                                          waiting: map<int, seq<Answer>>, k: int)
    requires k in waiting
    ensures var taken := Taken(route, requests, waiting);
      && |taken.0| <= |requests| && k in taken.1
      && DueOn(route, requests[..|taken.0|], taken.0, k) + taken.1[k] == waiting[k]
    decreases |requests|
  {
    hide Heard, DueOn;
    DueOnNone(route, k);
    if requests != [] && route(requests[0].hashKey) in waiting && waiting[route(requests[0].hashKey)] != [] {
      var socket := route(requests[0].hashKey);
      var first := waiting[socket][0];
      var next := waiting[socket := waiting[socket][1..]];
      HeadTail(waiting[socket]);
      if Heard(first).Failure? {
        DueOnFront(route, requests[..1], first, [], k);
        assert requests[..1][1..] == [] && [first] + [] == [first];
        NothingAround(route, first, k);
        NothingBefore(waiting[k]);
      } else {
        TakenConserves(route, requests[1..], next, k);
        var others := Taken(route, requests[1..], next);
        var m := |others.0|;
        assert requests[..m + 1][1..] == requests[1..][..m];
        DueOnFront(route, requests[..m + 1], first, others.0, k);
        ConcatAssociative(if socket == k then [first]
          else [], DueOn(route, requests[1..][..m], others.0, k), others.1[k]);
        NothingBefore(waiting[k]);
      }
    } else {
      assert requests[..0] == [];
      NothingBefore(waiting[k]);
    }
  }

  /** With an answer waiting for every request, answers are taken up to the first one on
      which the client throws, which is taken too, or for all requests. */
  lemma {:induction false} TakenStops(route: seq<byte> -> int, requests: seq<Request>, waiting: map<int, seq<Answer>>)
    requires (forall key: seq<byte> :: route(key) in waiting) && AllAnswered(route, requests, waiting)
    ensures var taken := Taken(route, requests, waiting).0;
      |taken| == if FirstThrown(taken) < |taken| then FirstThrown(taken) + 1 else |requests|
    decreases |requests|
  {
    hide Heard, Taken, AllAnswered, FirstThrown;
    var taken := Taken(route, requests, waiting).0;
    FirstThrownFront(taken);
    if requests == [] {
      TakenNone(route, waiting);
    } else {
      TakenFront(route, requests, waiting);
      var k := route(requests[0].hashKey);
      if Heard(waiting[k][0]).Success? {
        TakenStops(route, requests[1..], waiting[k := waiting[k][1..]]);
        assert taken[1..] == Taken(route, requests[1..], waiting[k := waiting[k][1..]]).0;
      } else {
        FirstThrownFront([]);
      }
    }
  }

  lemma NothingAround(route: seq<byte> -> int, first: Answer, k: int)
    ensures [first] + [] == [first] && DueOn(route, [], [], k) == []
  {
  }

  /** What waits on every connection once a batch has been answered. */
  ghost function Waiting(route: seq<byte> -> int, due: map<int, seq<Answer>>, requests: seq<Request>,
                         answers: seq<Answer>): map<int, seq<Answer>>
    requires |answers| == |requests|
  {
    map k | k in due :: due[k] + DueOn(route, requests, answers, k)
  }

  lemma {:induction false} DueOnLength(route: seq<byte> -> int, requests: seq<Request>, answers: seq<Answer>, k: int)
    requires |answers| == |requests|
    ensures |DueOn(route, requests, answers, k)| == |OnSocket(route, requests, k)|
  {
    if requests != [] {
      DueOnLength(route, requests[1..], answers[1..], k);
    }
  }

  lemma EnoughWaiting(route: seq<byte> -> int, requests: seq<Request>, due: map<int, seq<Answer>>, answers: seq<Answer>)
    requires |answers| == |requests|
    ensures AllAnswered(route, requests, Waiting(route, due, requests, answers))
  {
    hide DueOn, OnSocket;
    forall k | k in due
      ensures |OnSocket(route, requests, k)| <= |Waiting(route, due, requests, answers)[k]|
    {
      DueOnLength(route, requests, answers, k);
    }
  }

  lemma CleanWaiting(route: seq<byte> -> int, due: map<int, seq<Answer>>, requests: seq<Request>, answers: seq<Answer>)
    requires |answers| == |requests| && forall k | k in due :: due[k] == []
    ensures AllDue(route, requests, answers, Waiting(route, due, requests, answers))
  {
    hide DueOn;
    forall k | k in due
      ensures due[k] + DueOn(route, requests, answers, k) == DueOn(route, requests, answers, k)
    {
      NothingBefore(DueOn(route, requests, answers, k));
    }
  }

  /** From a clean cluster every request takes its own answer. */
  lemma {:induction false} TakenClean(route: seq<byte> -> int, requests: seq<Request>, answers: seq<Answer>,
                                      waiting: map<int, seq<Answer>>)
    requires AllDue(route, requests, answers, waiting) && |requests| == |answers|
    requires forall key: seq<byte> :: route(key) in waiting
    ensures var taken := Taken(route, requests, waiting);
      && taken.0 == answers[..Min(FirstThrown(answers) + 1, |answers|)]
      && LeftBehind(route, requests, answers, taken.1)
      && ((forall k | k in taken.1 :: taken.1[k] == []) <==> |requests| <= FirstThrown(answers) + 1)
    decreases |requests|
  {
    hide Heard, DueOn, FirstThrown, AllDue;
    FirstThrownFront(answers);
    if requests == [] {
      AllDueNone(route, requests, answers, waiting);
    } else {
      AllDueFront(route, requests, answers, waiting);
      var k := route(requests[0].hashKey);
      var next := waiting[k := waiting[k][1..]];
      if Heard(answers[0]).Failure? {
        AllDueNone(route, requests[1..], answers[1..], next);
        assert answers[..1] == [answers[0]];
      } else {
        TakenClean(route, requests[1..], answers[1..], next);
        CutsBehind(requests, answers, FirstThrown(answers[1..]));
      }
    }
  }

  lemma FirstThrownFront(answers: seq<Answer>)
    ensures FirstThrown(answers)
      == if answers == [] || Heard(answers[0]).Failure? then 0 else 1 + FirstThrown(answers[1..])
  {
    hide Heard;
  }

  lemma CutsBehind(requests: seq<Request>, answers: seq<Answer>, n: nat)
    requires requests != [] && |requests| == |answers| && n <= |answers| - 1
    ensures answers[..Min(n + 2, |answers|)] == [answers[0]] + answers[1..][..Min(n + 1, |answers| - 1)]
    ensures n < |answers| - 1 ==>
      requests[1..][n + 1..] == requests[n + 2..] && answers[1..][n + 1..] == answers[n + 2..]
  {
  }

  /** Up to the first exception nothing else matters. */
  lemma {:induction false} FirstThrownCut(answers: seq<Answer>)
    ensures var n := FirstThrown(answers);
      FirstThrown(answers[..Min(n + 1, |answers|)]) == n
  {
    hide Heard;
    if answers != [] && Heard(answers[0]).Success? {
      FirstThrownCut(answers[1..]);
      var m := Min(FirstThrown(answers), |answers| - 1);
      assert answers[..m + 1][1..] == answers[1..][..m];
    }
  }

  /** A batch comes to its end exactly when the client throws on no answer. */
  lemma DoneExact(answers: seq<Answer>, replies: seq<Reply>, outcome: Outcome)
    requires Obtained(answers, replies, outcome)
    ensures outcome == Done <==> forall i | 0 <= i < |answers| :: Heard(answers[i]).Success?
  {
    hide Heard;
  }

  lemma FromClean(route: seq<byte> -> int, before: map<int, seq<Answer>>, requests: seq<Request>,
                  answers: seq<Answer>, due: map<int, seq<Answer>>, replies: seq<Reply>, outcome: Outcome)
    requires |answers| == |requests| && (forall k | k in before :: before[k] == [])
    requires forall key: seq<byte> :: route(key) in before
    requires var taken := Taken(route, requests, Waiting(route, before, requests, answers));
      Obtained(taken.0, replies, outcome) && due == taken.1
    ensures Obtained(answers, replies, outcome) && LeftBehind(route, requests, answers, due)
    ensures (forall k | k in due :: due[k] == []) <==> |requests| <= FirstThrown(answers) + 1
  {
    CleanWaiting(route, before, requests, answers);
    hide Taken, Obtained, AllDue, FirstThrown, LeftBehind, Heard;
    TakenClean(route, requests, answers, Waiting(route, before, requests, answers));
    ObtainedClean(answers, replies, outcome);
  }

  lemma ObtainedClean(answers: seq<Answer>, replies: seq<Reply>, outcome: Outcome)
    requires Obtained(answers[..Min(FirstThrown(answers) + 1, |answers|)], replies, outcome)
    ensures Obtained(answers, replies, outcome)
  {
    hide Heard, FirstThrown;
    FirstThrownCut(answers);
  }

  lemma ThrownAt(answers: seq<Answer>, replies: seq<Reply>, i: nat)
    requires i < |answers| && i == |replies| && Heard(answers[i]).Failure?
    requires forall j | 0 <= j < i :: Heard(answers[j]) == RedisReader.Success(replies[j])
    ensures FirstThrown(answers) == i && Obtained(answers, replies, Threw(Heard(answers[i]).error))
  {
    hide Heard;
  }

  lemma NothingThrown(answers: seq<Answer>, replies: seq<Reply>)
    requires |answers| == |replies|
    requires forall j | 0 <= j < |answers| :: Heard(answers[j]) == RedisReader.Success(replies[j])
    ensures FirstThrown(answers) == |answers| && Obtained(answers, replies, Done)
  {
    hide Heard;
  }

  class Cluster<S(!new)> {
    const sockets: seq<int>
    const hasher: seq<byte> -> nat
    const handle: (S, Command) -> (S, Answer)

    // the other ends of the connections
    var servers: map<int, S>
    /** The bytes waiting on each connection, and the answers they print. */
    var inbox: map<int, seq<byte>>
    ghost var due: map<int, seq<Answer>>

    constructor (sockets: seq<int>, hasher: seq<byte> -> nat, handle: (S, Command) -> (S, Answer), servers: map<int, S>)
      requires sockets != [] && (forall i | 0 <= i < |sockets| :: sockets[i] in servers) && Speaks(handle)
      ensures Valid() && this.sockets == sockets && this.hasher == hasher && this.handle == handle
        && this.servers == servers
    {
      this.sockets, this.hasher, this.handle := sockets, hasher, handle;
      this.servers, inbox, due := servers, map k | k in servers :: [], map k | k in servers :: [];
    }

    ghost predicate Wired()
      reads this
    {
      && Speaks(handle) && inbox.Keys == due.Keys
      && forall k | k in due :: inbox[k] == PrintAnswers(due[k]) && AllSayable(due[k])
    }

    /** Every connection has a server; replies of earlier calls may be waiting. */
    ghost predicate Connected()
      reads this
    {
      sockets != [] && (forall i | 0 <= i < |sockets| :: sockets[i] in servers) && Wired() && due.Keys == servers.Keys
    }

    /** No reply is waiting. */
    ghost predicate Valid()
      reads this
    {
      Connected() && forall k | k in due :: due[k] == []
    }

    function GetSocket(key: seq<byte>): int
      requires sockets != []
    {
      SocketOf(sockets, hasher, key)
    }

    function Route(): seq<byte> -> int
      requires sockets != []
    {
      key => SocketOf(sockets, hasher, key)
    }

    /** The connection of a key is the one its hash selects, also when there is only one. */
    lemma RouteIsHash()
      requires sockets != []
      ensures forall key: seq<byte> :: Route()(key) == GetSocket(key) == sockets[hasher(key) % |sockets|]
    {
      forall key: seq<byte>
        ensures SocketOf(sockets, hasher, key) == sockets[hasher(key) % |sockets|]
      {
        assert |sockets| == 1 ==> hasher(key) % |sockets| == 0;
      }
    }

    lemma RouteConnected()
      requires Connected()
      ensures forall key: seq<byte> :: Route()(key) in servers
    {
    }

    /** What is written to a socket is parsed and answered by its server. */
    method Send(socket: int, msg: seq<byte>)
      requires socket in servers && socket in due && Wired()
      modifies this
      ensures var answered := Serve(handle, old(servers)[socket], ParseAll(msg));
        && servers == old(servers)[socket := answered.0]
        && due == old(due)[socket := old(due)[socket] + answered.1] && Wired()
    {
      var answered := Serve(handle, servers[socket], ParseAll(msg));
      ServeSpeaks(handle, servers[socket], ParseAll(msg));
      hide PrintAnswers, Sayable, Speaks;
      PrintAnswersConcat(due[socket], answered.1);
      servers := servers[socket := answered.0];
      inbox := inbox[socket := inbox[socket] + PrintAnswers(answered.1)];
      due := due[socket := due[socket] + answered.1];
    }

    /** The next reply on a socket, read off its bytes. It may be an exception. */
    method Recv(socket: int) returns (reply: RedisReader.Result<Reply>)
      requires socket in due && due[socket] != [] && Wired()
      modifies this`inbox, this`due
      ensures reply == Heard(old(due)[socket][0])
      ensures due == old(due)[socket := old(due)[socket][1..]] && Wired()
    {
      hide PrintAnswers, Sayable, Speaks, ReadReply, Heard;
      RepliesInOrder(due[socket]);
      var connection := new RedisReader.Socket(inbox[socket]);
      reply := RecvGenericReply(connection);
      inbox := inbox[socket := connection.stream];
      due := due[socket := due[socket][1..]];
    }

    /** Where a list is expected: its items, or an exception. Either way what is
        left on the connection are the answers behind. */
    method RecvList(socket: int) returns (result: RedisReader.Result<seq<seq<byte>>>)
      requires socket in due && due[socket] != [] && Wired()
      requires due[socket][0].SayMultiBulk? || due[socket][0].SayError? || due[socket][0].SayNoList?
      modifies this`inbox, this`due
      ensures result == HeardList(old(due)[socket][0])
      ensures due == old(due)[socket := old(due)[socket][1..]] && Wired()
    {
      hide PrintAnswers, Sayable, Speaks, ReadMultiBulk, AllSeen, HeardList;
      ListsInOrder(due[socket]);
      var connection := new RedisReader.Socket(inbox[socket]);
      result := RedisReader.RecvMultiBulk(connection);
      inbox := inbox[socket := connection.stream];
      due := due[socket := due[socket][1..]];
    }

    /** One pipelined request string per socket. */
    method Batch(requests: seq<Request>) returns (socketCommands: map<int, seq<byte>>)
      requires sockets != []
      ensures Batched(Route(), requests, socketCommands)
    {
      hide Batched, PrintCommand, SocketOf;
      socketCommands := map[];
      BatchedNone(Route());
      for i := 0 to |requests|
        invariant Batched(Route(), requests[..i], socketCommands)
      {
        var socket := GetSocket(requests[i].hashKey);
        assert requests[..i + 1] == requests[..i] + [requests[i]];
        BatchedSnoc(Route(), requests[..i], requests[i], socketCommands);
        socketCommands := socketCommands[socket :=
          (if socket in socketCommands then socketCommands[socket] else []) + PrintCommand(requests[i].args)];
      }
      assert requests[..|requests|] == requests;
    }

    /** Write every socket's batch; the order of the sockets does not matter. */
    method SendAll(socketCommands: map<int, seq<byte>>)
      requires Connected() && socketCommands.Keys <= servers.Keys
      modifies this
      ensures Answered(handle, old(servers), old(due), servers, due, socketCommands, socketCommands.Keys) && Wired()
    {
      NothingAnswered(handle, servers, due, socketCommands);
      hide ParseAll, Serve, Wired, Answered;
      var todo := socketCommands.Keys;
      while todo != {}
        invariant todo <= socketCommands.Keys && servers.Keys == due.Keys == old(servers).Keys && Wired()
        invariant Answered(handle, old(servers), old(due), servers, due, socketCommands, socketCommands.Keys - todo)
        decreases todo
      {
        var socket := Pick(todo);
        OneMoreAnswered(handle, old(servers), old(due), servers, due, socketCommands, socketCommands.Keys - todo,
          socket);
        Send(socket, socketCommands[socket]);
        assert socketCommands.Keys - (todo - {socket}) == (socketCommands.Keys - todo) + {socket};
        todo := todo - {socket};
      }
      assert socketCommands.Keys - {} == socketCommands.Keys;
    }

    method SendCommand(socket: int, args: Command)
      requires socket in servers && socket in due && Wired() && Printable(args)
      modifies this
      ensures var own := handle(old(servers)[socket], args);
        && servers == old(servers)[socket := own.0]
        && due == old(due)[socket := old(due)[socket] + [own.1]] && Wired()
    {
      OneCommand(handle, servers[socket], args);
      hide ParseAll, Serve, PrintCommand, Printable, Wired;
      Send(socket, PrintCommand(args));
    }

    /** A single command. Its reply is its own when nothing was waiting on its
        connection, and otherwise the one that was waiting longest. */
    method ExecOne(request: Request) returns (reply: RedisReader.Result<Reply>)
      requires Connected() && Printable(request.args)
      modifies this
      ensures Connected()
      ensures var k := sockets[hasher(request.hashKey) % |sockets|];
        && k in old(servers) && k in old(due)
        && var own := handle(old(servers)[k], request.args);
          var waiting := old(due)[k] + [own.1];
          && servers == old(servers)[k := own.0]
          && reply == Heard(waiting[0]) && due == old(due)[k := waiting[1..]]
    {
      hide Printable, Wired, Heard, SocketOf;
      RouteIsHash();
      RouteConnected();
      var socket := GetSocket(request.hashKey);
      assert Route()(request.hashKey) == socket;
      SendCommand(socket, request.args);
      reply := Recv(socket);
    }

    /** No request's key has this connection. */
    ghost predicate NoneFor(requests: seq<Request>, k: int)
      requires sockets != []
    {
      forall i | 0 <= i < |requests| :: sockets[hasher(requests[i].hashKey) % |sockets|] != k
    }

    ghost predicate Keeps(k: int, before: map<int, S>, waiting: map<int, seq<Answer>>)
      reads this
    {
      && k in servers && k in before && servers[k] == before[k]
      && k in due && k in waiting && due[k] == waiting[k]
    }

    /** A server for which there is no command keeps its state, and its connection the
        answers that wait there. */
    lemma Bystander(before: map<int, S>, waiting: map<int, seq<Answer>>, requests: seq<Request>, k: int)
      requires sockets != [] && (forall key: seq<byte> :: Route()(key) in before)
      requires k in before && k in waiting && NoneFor(requests, k)
      ensures var all := ExecAll(handle, Route(), before, requests);
        var taken := Taken(Route(), requests, Waiting(Route(), waiting, requests, all.1));
        all.0[k] == before[k] && k in taken.1 && taken.1[k] == waiting[k]
    {
      RouteIsHash();
      hide SocketOf, ExecAll, Taken, DueOn, OnSocket, Serve;
      var all := ExecAll(handle, Route(), before, requests);
      ExecAllOn(handle, Route(), before, requests, k);
      NothingOn(Route(), requests, all.1, k);
      ServeNothing(handle, before[k]);
      assert waiting[k] + [] == waiting[k];
      var there := Waiting(Route(), waiting, requests, all.1);
      var taken := Taken(Route(), requests, there);
      TakenConserves(Route(), requests, there, k);
      NothingOn(Route(), requests[..|taken.0|], taken.0, k);
      NothingBefore(taken.1[k]);
    }

    lemma Bystanders(before: map<int, S>, waiting: map<int, seq<Answer>>, requests: seq<Request>,
                     servers': map<int, S>, due': map<int, seq<Answer>>)
      requires sockets != [] && (forall key: seq<byte> :: Route()(key) in before) && before.Keys == waiting.Keys
      requires var all := ExecAll(handle, Route(), before, requests);
        servers' == all.0 && due' == Taken(Route(), requests, Waiting(Route(), waiting, requests, all.1)).1
      ensures forall k | k in before && NoneFor(requests, k) ::
        k in servers' && k in due' && servers'[k] == before[k] && due'[k] == waiting[k]
    {
      hide SocketOf, ExecAll, Taken, Waiting, NoneFor;
      forall k | k in before && NoneFor(requests, k)
        ensures k in servers' && k in due' && servers'[k] == before[k] && due'[k] == waiting[k]
      {
        Bystander(before, waiting, requests, k);
      }
    }

    /** Pipelined execution leaves every server in the state that executing the
        commands one by one would. Each command is given the answer that waits first
        on its connection, up to the first on which the client throws. From a clean
        cluster these are the commands' own answers; those behind the one that threw
        stay unread, and the cluster is clean again exactly when there are none. */
    method Exec(requests: seq<Request>) returns (replies: seq<Reply>, outcome: Outcome)
      requires Connected() && forall i | 0 <= i < |requests| :: Printable(requests[i].args)
      modifies this
      ensures Connected() && forall key: seq<byte> :: Route()(key) in old(servers)
      ensures forall key: seq<byte> :: Route()(key) == sockets[hasher(key) % |sockets|]
      ensures forall k | k in old(servers) && NoneFor(requests, k) :: Keeps(k, old(servers), old(due))
      ensures var all := ExecAll(handle, Route(), old(servers), requests);
        var taken := Taken(Route(), requests, Waiting(Route(), old(due), requests, all.1));
        servers == all.0 && Obtained(taken.0, replies, outcome) && due == taken.1
      ensures old(Valid()) ==>
        var answers := ExecAll(handle, Route(), old(servers), requests).1;
        && Obtained(answers, replies, outcome) && LeftBehind(Route(), requests, answers, due)
        && (Valid() <==> |requests| <= FirstThrown(answers) + 1)
    {
      hide ExecAll, Taken, Waiting, Obtained, LeftBehind, SocketOf, Wired, AllAnswered, Batched, Answered, FirstThrown,
        NoneFor, Printable;
      RouteIsHash();
      RouteConnected();
      var socketCommands := Batch(requests);
      BatchConnected(requests, socketCommands);
      SendAll(socketCommands);
      ghost var all := ExecAll(handle, Route(), old(servers), requests);
      ghost var taken := Taken(Route(), requests, Waiting(Route(), old(due), requests, all.1));
      BatchAnswered(handle, Route(), old(servers), old(due), servers, due, requests, socketCommands);
      EnoughWaiting(Route(), requests, old(due), all.1);
      Bystanders(old(servers), old(due), requests, all.0, taken.1);
      replies, outcome := Collect(requests);
      if old(Valid()) {
        FromClean(Route(), old(due), requests, all.1, due, replies, outcome);
      }
    }

    lemma BatchConnected(requests: seq<Request>, socketCommands: map<int, seq<byte>>)
      requires Connected() && Batched(Route(), requests, socketCommands)
      ensures socketCommands.Keys <= servers.Keys
    {
      RouteConnected();
      forall k | k in socketCommands
        ensures k in servers
      {
        OnSocketConnected(Route(), requests, k, servers.Keys);
      }
    }

    /** Take the replies in the order of the commands, up to an exception. */
    method Collect(requests: seq<Request>) returns (replies: seq<Reply>, outcome: Outcome)
      requires Connected() && AllAnswered(Route(), requests, due)
      modifies this`inbox, this`due
      ensures Connected()
      ensures var taken := Taken(Route(), requests, old(due));
        Obtained(taken.0, replies, outcome) && due == taken.1
    {
      hide Taken, AllAnswered, Wired, SocketOf, Heard, FirstThrown, Obtained;
      replies := [];
      ghost var whole, answers: seq<Answer> := Taken(Route(), requests, due), [];
      for i := 0 to |requests|
        invariant Connected() && |replies| == |answers| == i && AllAnswered(Route(), requests[i..], due)
        invariant whole.0 == answers + Taken(Route(), requests[i..], due).0
        invariant whole.1 == Taken(Route(), requests[i..], due).1
        invariant forall j | 0 <= j < i :: Heard(answers[j]) == RedisReader.Success(replies[j])
      {
        var reply, first := CollectOne(requests, i);
        if reply.Failure? {
          ThrownAt(answers + [first], replies, i);
          return replies, Threw(reply.error);
        }
        ConcatAssociative(answers, [first], Taken(Route(), requests[i + 1..], due).0);
        replies, answers := replies + [reply.value], answers + [first];
      }
      TakenNone(Route(), due);
      assert requests[|requests|..] == [] && answers + [] == answers;
      NothingThrown(answers, replies);
      outcome := Done;
    }

    /** The reply to command i. */
    method CollectOne(requests: seq<Request>, i: nat) returns (reply: RedisReader.Result<Reply>, ghost first: Answer)
      requires Connected() && i < |requests| && AllAnswered(Route(), requests[i..], due)
      modifies this`inbox, this`due
      ensures Connected() && reply == Heard(first)
      ensures reply.Failure? ==> Taken(Route(), requests[i..], old(due)) == ([first], due)
      ensures reply.Success? ==>
        var others := Taken(Route(), requests[i + 1..], due);
        && AllAnswered(Route(), requests[i + 1..], due)
        && Taken(Route(), requests[i..], old(due)) == ([first] + others.0, others.1)
    {
      RouteConnected();
      hide Taken, AllAnswered, Wired, SocketOf, Heard;
      var socket := GetSocket(requests[i].hashKey);
      assert requests[i..][0] == requests[i] && requests[i..][1..] == requests[i + 1..];
      assert Route()(requests[i].hashKey) == socket;
      TakenFront(Route(), requests[i..], due);
      first := due[socket][0];
      reply := Recv(socket);
    }
  }

  lemma {:induction false} NothingOn(route: seq<byte> -> int, requests: seq<Request>, answers: seq<Answer>, k: int)
    requires |answers| == |requests| && forall i | 0 <= i < |requests| :: route(requests[i].hashKey) != k
    ensures OnSocket(route, requests, k) == [] && DueOn(route, requests, answers, k) == []
  {
    if requests != [] {
      NothingOn(route, requests[1..], answers[1..], k);
    }
  }

  lemma OneCommand<S>(handle: (S, Command) -> (S, Answer), s: S, c: Command)
    requires Printable(c)
    ensures Serve(handle, s, ParseAll(PrintCommand(c))) == (handle(s, c).0, [handle(s, c).1])
  {
    hide *;
    ParseOne(c);
    ServeOne(handle, s, c);
  }

  lemma ServeOne<S>(handle: (S, Command) -> (S, Answer), s: S, c: Command)
    ensures Serve(handle, s, [c]) == (handle(s, c).0, [handle(s, c).1])
  {
    ServeFront(handle, s, c, []);
    assert [c] + [] == [c];
    assert [handle(s, c).1] + [] == [handle(s, c).1];
  }

  lemma ParseOne(c: Command)
    requires Printable(c)
    ensures ParseAll(PrintCommand(c)) == [c]
  {
    hide Printable, ParseAll, PrintCommands, PrintCommand;
    PrintOne(c);
    ParseAllPrinted([c]);
  }

  lemma PrintOne(c: Command)
    ensures PrintCommands([c]) == PrintCommand(c)
  {
  }

  method Pick(s: set<int>) returns (x: int)
    requires s != {}
    ensures x in s
  {
    assert (forall k :: k !in s) ==> s == {};
    x :| x in s;
  }

  // ----- batches -----

  /** The servers of done have answered their batches, the others nothing. */
  ghost predicate Answered<S>(handle: (S, Command) -> (S, Answer), before: map<int, S>, waiting: map<int, seq<Answer>>,
                              servers: map<int, S>, due: map<int, seq<Answer>>, m: map<int, seq<byte>>,
                              done: set<int>) {
    && servers.Keys == before.Keys == due.Keys == waiting.Keys
    && forall k | k in before ::
      var answered := Serve(handle, before[k], if k in m && k in done then ParseAll(m[k]) else []);
      servers[k] == answered.0 && due[k] == waiting[k] + answered.1
  }

  lemma NothingAnswered<S(!new)>(handle: (S, Command) -> (S, Answer), servers: map<int, S>, due: map<int, seq<Answer>>,
                                 m: map<int, seq<byte>>)
    requires due.Keys == servers.Keys
    ensures Answered(handle, servers, due, servers, due, m, m.Keys - m.Keys)
  {
    hide ParseAll, Serve;
    forall k | k in servers
      ensures Serve(handle, servers[k], []) == (servers[k], []) && due[k] + [] == due[k]
    {
      ServeNothing(handle, servers[k]);
    }
  }

  lemma OneMoreAnswered<S(!new)>(handle: (S, Command) -> (S, Answer), before: map<int, S>,
                                 waiting: map<int, seq<Answer>>, servers: map<int, S>, due: map<int, seq<Answer>>,
                                 m: map<int, seq<byte>>, done: set<int>, socket: int)
    requires Answered(handle, before, waiting, servers, due, m, done)
    requires socket in before && socket in m && socket !in done
    ensures var answered := Serve(handle, servers[socket], ParseAll(m[socket]));
      Answered(handle, before, waiting, servers[socket := answered.0], due[socket := due[socket] + answered.1], m,
               done + {socket})
  {
    ServeNothing(handle, before[socket]);
    hide ParseAll, Serve;
    assert waiting[socket] + [] == waiting[socket];
  }

  ghost predicate Batched(route: seq<byte> -> int, requests: seq<Request>, m: map<int, seq<byte>>) {
    && (forall k :: k in m <==> OnSocket(route, requests, k) != [])
    && (forall k | k in m :: m[k] == PrintCommands(OnSocket(route, requests, k)))
  }

  lemma BatchedNone(route: seq<byte> -> int)
    ensures Batched(route, [], map[])
  {
  }

  lemma BatchedSnoc(route: seq<byte> -> int, requests: seq<Request>, r: Request, m: map<int, seq<byte>>)
    requires Batched(route, requests, m)
    ensures var socket := route(r.hashKey);
      Batched(route, requests + [r], m[socket := (if socket in m then m[socket] else []) + PrintCommand(r.args)])
  {
    hide PrintCommand, OnSocket;
    var socket := route(r.hashKey);
    PrintCommandsSnoc(OnSocket(route, requests, socket), r.args);
    hide PrintCommands;
    PrintNone();
    forall k
      ensures OnSocket(route, requests + [r], k)
        == OnSocket(route, requests, k) + if k == socket then [r.args] else []
    {
      OnSocketSnoc(route, requests, r, k);
    }
    assert forall k :: OnSocket(route, requests, k) + [] == OnSocket(route, requests, k);
  }

  lemma PrintNone()
    ensures PrintCommands([]) == []
  {
  }

  // ----- replies still due -----

  /** On every connection those of the answers are still to come whose request went there. */
  ghost predicate AllDue(route: seq<byte> -> int, requests: seq<Request>, answers: seq<Answer>,
                         due: map<int, seq<Answer>>) {
    |answers| == |requests| && forall k | k in due :: due[k] == DueOn(route, requests, answers, k)
  }

  lemma AllDueFront(route: seq<byte> -> int, requests: seq<Request>, answers: seq<Answer>, due: map<int, seq<Answer>>)
    requires AllDue(route, requests, answers, due) && requests != [] && route(requests[0].hashKey) in due
    ensures answers != []
    ensures var k := route(requests[0].hashKey);
      && due[k] != [] && due[k][0] == answers[0]
      && AllDue(route, requests[1..], answers[1..], due[k := due[k][1..]])
  {
  }

  /** Nothing is due exactly when no request is left. */
  lemma AllDueNone(route: seq<byte> -> int, requests: seq<Request>, answers: seq<Answer>, due: map<int, seq<Answer>>)
    requires AllDue(route, requests, answers, due) && forall key: seq<byte> :: route(key) in due
    ensures (forall k | k in due :: due[k] == []) <==> requests == []
  {
    if requests != [] {
      var k := route(requests[0].hashKey);
      assert k in due && due[k] == DueOn(route, requests, answers, k);
      assert DueOn(route, requests, answers, k)[0] == answers[0];
      assert due[k] != [];
    }
  }

  /** What each server does with its own commands is what it does in the execution
      of all commands one by one. */
  lemma {:induction false} ExecAllOn<S>(handle: (S, Command) -> (S, Answer), route: seq<byte> -> int,
                                        servers: map<int, S>, requests: seq<Request>, k: int)
    requires (forall key: seq<byte> :: route(key) in servers) && k in servers
    ensures var all := ExecAll(handle, route, servers, requests);
      (all.0[k], DueOn(route, requests, all.1, k)) == Serve(handle, servers[k], OnSocket(route, requests, k))
    decreases |requests|
  {
    hide ExecAll, DueOn, OnSocket, Serve;
    ExecAllFront(handle, route, servers, requests);
    OnSocketFront(route, requests, k);
    if requests == [] {
      DueOnNone(route, k);
      ServeNothing(handle, servers[k]);
    } else {
      var socket := route(requests[0].hashKey);
      var first := handle(servers[socket], requests[0].args);
      var others := ExecAll(handle, route, servers[socket := first.0], requests[1..]);
      ExecAllOn(handle, route, servers[socket := first.0], requests[1..], k);
      DueOnFront(route, requests, first.1, others.1, k);
      if k == socket {
        ServeFront(handle, servers[k], requests[0].args, OnSocket(route, requests[1..], k));
      } else {
        NothingBefore(OnSocket(route, requests[1..], k));
        NothingBefore(DueOn(route, requests[1..], others.1, k));
      }
    }
  }

  lemma ExecAllFront<S>(handle: (S, Command) -> (S, Answer), route: seq<byte> -> int, servers: map<int, S>,
                        requests: seq<Request>)
    requires forall key: seq<byte> :: route(key) in servers
    ensures requests == [] ==> ExecAll(handle, route, servers, requests) == (servers, [])
    ensures requests != [] ==>
      var k := route(requests[0].hashKey);
      var first := handle(servers[k], requests[0].args);
      var others := ExecAll(handle, route, servers[k := first.0], requests[1..]);
      ExecAll(handle, route, servers, requests) == (others.0, [first.1] + others.1)
  {
  }

  lemma DueOnNone(route: seq<byte> -> int, socket: int)
    ensures DueOn(route, [], [], socket) == []
  {
  }

  lemma DueOnFront(route: seq<byte> -> int, requests: seq<Request>, first: Answer, others: seq<Answer>, socket: int)
    requires |requests| == |others| + 1
    ensures DueOn(route, requests, [first] + others, socket)
      == (if route(requests[0].hashKey) == socket then [first] else []) + DueOn(route, requests[1..], others, socket)
  {
    assert ([first] + others)[1..] == others;
  }

  lemma ServeNothing<S>(handle: (S, Command) -> (S, Answer), s: S)
    ensures Serve(handle, s, []) == (s, [])
  {
  }

  /** Once every server has answered its batch. */
  lemma BatchAnswered<S>(handle: (S, Command) -> (S, Answer), route: seq<byte> -> int, before: map<int, S>,
                         waiting: map<int, seq<Answer>>, servers: map<int, S>, due: map<int, seq<Answer>>,
                         requests: seq<Request>, m: map<int, seq<byte>>)
    requires forall key: seq<byte> :: route(key) in before
    requires forall i | 0 <= i < |requests| :: Printable(requests[i].args)
    requires Batched(route, requests, m) && Answered(handle, before, waiting, servers, due, m, m.Keys)
    ensures var all := ExecAll(handle, route, before, requests);
      servers == all.0 && due == Waiting(route, waiting, requests, all.1)
    ensures servers.Keys == due.Keys == before.Keys
  {
    hide ParseAll, PrintCommands, Serve, ExecAll, DueOn, OnSocket, Printable;
    var all := ExecAll(handle, route, before, requests);
    forall k | k in before
      ensures servers[k] == all.0[k] && due[k] == waiting[k] + DueOn(route, requests, all.1, k)
    {
      ExecAllOn(handle, route, before, requests, k);
      OnSocketPrintable(route, requests, k);
      ParseAllPrinted(OnSocket(route, requests, k));
      ServeNothing(handle, before[k]);
    }
    assert servers.Keys == all.0.Keys;
    assert forall k | k in servers :: servers[k] == all.0[k];
    assert due.Keys == waiting.Keys;
  }

  lemma ServeFront<S>(handle: (S, Command) -> (S, Answer), s: S, c: Command, others: seq<Command>)
    ensures var first := handle(s, c);
      var tail := Serve(handle, first.0, others);
      Serve(handle, s, [c] + others) == (tail.0, [first.1] + tail.1) && ([first.1] + tail.1)[1..] == tail.1
  {
  }

  ghost predicate AllPrintable(commands: seq<Command>) {
    forall i | 0 <= i < |commands| :: Printable(commands[i])
  }

  lemma AllPrintableFront(c: Command, commands: seq<Command>)
    requires Printable(c) && AllPrintable(commands)
    ensures AllPrintable([c] + commands)
  {
  }

  lemma {:induction false} OnSocketPrintable(route: seq<byte> -> int, requests: seq<Request>, socket: int)
    requires forall i | 0 <= i < |requests| :: Printable(requests[i].args)
    ensures AllPrintable(OnSocket(route, requests, socket))
  {
    hide Printable;
    if requests != [] {
      OnSocketPrintable(route, requests[1..], socket);
      var tail := OnSocket(route, requests[1..], socket);
      hide AllPrintable;
      AllPrintableFront(requests[0].args, tail);
      assert [] + tail == tail;
    }
  }

  lemma {:induction false} OnSocketConnected(route: seq<byte> -> int, requests: seq<Request>, socket: int,
                                             connected: set<int>)
    requires (forall key: seq<byte> :: route(key) in connected) && OnSocket(route, requests, socket) != []
    ensures socket in connected
  {
    if route(requests[0].hashKey) != socket {
      OnSocketConnected(route, requests[1..], socket, connected);
    }
  }

  lemma {:induction false} PrintCommandsSnoc(commands: seq<Command>, c: Command)
    ensures PrintCommands(commands + [c]) == PrintCommands(commands) + PrintCommand(c)
  {
    hide PrintCommand;
    if commands == [] {
      assert commands + [c] == [c];
      assert PrintCommands([]) + PrintCommand(c) == PrintCommand(c);
      assert PrintCommand(c) + [] == PrintCommand(c);
    } else {
      assert (commands + [c])[1..] == commands[1..] + [c];
      PrintCommandsSnoc(commands[1..], c);
      ConcatAssociative(PrintCommand(commands[0]), PrintCommands(commands[1..]), PrintCommand(c));
    }
  }
}
