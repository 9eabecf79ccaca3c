/** MGET and SINTER over keys that live on several servers. */
module RedisMultiKey {
  import opened Bytes
  import RedisReader
  import opened Resp
  import opened RedisCluster
  import opened RedisReply
  import opened Sequences

  type Key = seq<byte>

  const MGET: seq<byte> := [77, 71, 69, 84]
  const SINTER: seq<byte> := [83, 73, 78, 84, 69, 82]

  // ----- what a server answers -----

  function Values<S>(value: (S, Key) -> Item, s: S, keys: seq<Key>): (v: seq<Item>)
    ensures |v| == |keys| && forall j | 0 <= j < |keys| :: v[j] == value(s, keys[j])
  {
    seq(|keys|, j requires 0 <= j < |keys| => value(s, keys[j]))
  }

  /** MGET reads: one value a key, in order, nil for a missing key. */
  ghost predicate AnswersMGet<S(!new)>(handle: (S, Command) -> (S, Answer), value: (S, Key) -> Item) {
    forall s: S, keys: seq<Key> | 0 < |keys| <= MAX_LONG ::
      handle(s, [[77, 71, 69, 84]] + keys) == (s, SayMultiBulk(Values(value, s, keys)))
  }

  /** What a key holds, as far as SINTER cares. */
  datatype Held = Members(members: set<seq<byte>>) | NotASet

  /** SINTER reads: the members of the intersection of its keys' sets, in any order;
      an error when some key does not hold a set. */
  ghost predicate AnswersSInter<S(!new)>(handle: (S, Command) -> (S, Answer), held: (S, Key) -> Held) {
    forall s: S, keys: seq<Key> | keys != [] ::
      var r := handle(s, [[83, 73, 78, 84, 69, 82]] + keys);
      r.0 == s && SaysIntersection(held, s, keys, r.1)
  }

  ghost predicate SaysIntersection<S(!new)>(held: (S, Key) -> Held, s: S, keys: seq<Key>, a: Answer) {
    if AllSets(held, s, keys) then
      a.SayMultiBulk? && forall x :: x in AllSeen(a.items) <==> InAll(held, s, keys, x)
    else a.SayError?
  }

  predicate AllSets<S>(held: (S, Key) -> Held, s: S, keys: seq<Key>) {
    forall j | 0 <= j < |keys| :: held(s, keys[j]).Members?
  }

  predicate InAll<S>(held: (S, Key) -> Held, s: S, keys: seq<Key>, x: seq<byte>) {
    forall j | 0 <= j < |keys| :: held(s, keys[j]).Members? && x in held(s, keys[j]).members
  }

  // ----- grouping keys by server -----

  /** The keys that live behind one connection, in order. */
  function KeysAt(route: Key -> int, keys: seq<Key>, socket: int): seq<Key> {
    if keys == [] then [] else (if route(keys[0]) == socket then [keys[0]] else []) + KeysAt(route, keys[1..], socket)
  }

  lemma KeysAtFront(route: Key -> int, keys: seq<Key>, socket: int)
    ensures KeysAt(route, keys, socket)
      == if keys == [] then []
        else (if route(keys[0]) == socket then [keys[0]] else []) + KeysAt(route, keys[1..], socket)
  {
  }

  lemma {:induction false} KeysAtSnoc(route: Key -> int, keys: seq<Key>, key: Key, socket: int)
    ensures KeysAt(route, keys + [key], socket)
      == KeysAt(route, keys, socket) + if route(key) == socket then [key] else []
  {
    hide KeysAt;
    var last := if route(key) == socket then [key] else [];
    KeysAtFront(route, keys, socket);
    KeysAtFront(route, keys + [key], socket);
    if keys == [] {
      KeysAtOne(route, key, socket);
      NothingBefore([key]);
      NothingBefore(last);
    } else {
      Front(keys, [key]);
      KeysAtSnoc(route, keys[1..], key, socket);
      ConcatAssociative(if route(keys[0]) == socket then [keys[0]] else [], KeysAt(route, keys[1..], socket), last);
    }
  }

  lemma KeysAtOne(route: Key -> int, key: Key, socket: int)
    ensures KeysAt(route, [key], socket) == if route(key) == socket then [key] else []
  {
  }

  /** The keys for one connection, and their positions in the original list. */
  datatype ConnectionKeys = ConnectionKeys(keys: seq<Key>, indices: seq<nat>)

  /** A group is made of the keys behind its connection, each with its position. */
  ghost predicate IsGroup(route: Key -> int, keys: seq<Key>, k: int, c: ConnectionKeys) {
    && 0 < |c.keys| == |c.indices| <= |keys| && c.keys == KeysAt(route, keys, k)
    && forall j | 0 <= j < |c.keys| ::
      c.indices[j] < |keys| && keys[c.indices[j]] == c.keys[j] && route(c.keys[j]) == k
  }

  ghost predicate Grouped(route: Key -> int, keys: seq<Key>, m: map<int, ConnectionKeys>) {
    && (forall k | k in m :: IsGroup(route, keys, k, m[k]))
    && (forall a | 0 <= a < |keys| :: route(keys[a]) in m && a in m[route(keys[a])].indices)
    && (forall k | k !in m :: KeysAt(route, keys, k) == [])
  }

  function AddKey(m: map<int, ConnectionKeys>, socket: int, key: Key, index: nat): map<int, ConnectionKeys> {
    var c := if socket in m then m[socket] else ConnectionKeys([], []);
    m[socket := ConnectionKeys(c.keys + [key], c.indices + [index])]
  }

  lemma GroupedSnoc(route: Key -> int, keys: seq<Key>, key: Key, m: map<int, ConnectionKeys>)
    requires Grouped(route, keys, m)
    ensures Grouped(route, keys + [key], AddKey(m, route(key), key, |keys|))
  {
    hide KeysAt, IsGroup;
    var more, n := keys + [key], AddKey(m, route(key), key, |keys|);
    forall k
      ensures if k in n then IsGroup(route, more, k, n[k]) else KeysAt(route, more, k) == []
    {
      KeysAtSnoc(route, keys, key, k);
      if k == route(key) {
        GroupExtended(route, keys, key, if k in m then m[k] else ConnectionKeys([], []));
      } else if k in m {
        GroupKept(route, keys, key, k, m[k]);
      }
    }
    forall a | 0 <= a < |more|
      ensures route(more[a]) in n && a in n[route(more[a])].indices
    {
      if a < |keys| {
        assert a in m[route(keys[a])].indices;
      } else {
        var indices := n[route(key)].indices;
        assert indices[|indices| - 1] == a;
      }
    }
  }

  lemma GroupExtended(route: Key -> int, keys: seq<Key>, key: Key, c: ConnectionKeys)
    requires IsGroup(route, keys, route(key), c)
      || (c == ConnectionKeys([], []) && KeysAt(route, keys, route(key)) == [])
    ensures IsGroup(route, keys + [key], route(key), ConnectionKeys(c.keys + [key], c.indices + [|keys|]))
  {
    hide KeysAt;
    KeysAtSnoc(route, keys, key, route(key));
  }

  lemma GroupKept(route: Key -> int, keys: seq<Key>, key: Key, k: int, c: ConnectionKeys)
    requires IsGroup(route, keys, k, c) && route(key) != k
    ensures IsGroup(route, keys + [key], k, c)
  {
    hide KeysAt;
    KeysAtSnoc(route, keys, key, k);
  }

  method GroupKeys<S(!new)>(c: Cluster<S>, keys: seq<Key>) returns (m: map<int, ConnectionKeys>)
    requires c.sockets != []
    ensures Grouped(c.Route(), keys, m)
  {
    hide Grouped, SocketOf;
    m := map[];
    assert Grouped(c.Route(), [], m) by { GroupedNone(c.Route()); }
    for i := 0 to |keys|
      invariant Grouped(c.Route(), keys[..i], m)
    {
      GroupedSnoc(c.Route(), keys[..i], keys[i], m);
      assert keys[..i + 1] == keys[..i] + [keys[i]];
      m := AddKey(m, c.GetSocket(keys[i]), keys[i], i);
    }
    assert keys[..|keys|] == keys;
  }

  lemma GroupedNone(route: Key -> int)
    ensures Grouped(route, [], map[])
  {
  }

  lemma GroupedPrintable(route: Key -> int, keys: seq<Key>, m: map<int, ConnectionKeys>, name: seq<byte>, k: int)
    requires Grouped(route, keys, m) && k in m && Printable(keys) && |keys| < MAX_LONG && |name| + 2 <= MAX_LONG
    ensures Printable([name] + m[k].keys)
  {
  }

  lemma GroupedConnected(route: Key -> int, keys: seq<Key>, m: map<int, ConnectionKeys>, connected: set<int>)
    requires Grouped(route, keys, m) && forall key: Key :: route(key) in connected
    ensures m.Keys <= connected
  {
    forall k | k in m
      ensures k in connected
    {
      assert route(m[k].keys[0]) == k;
    }
  }

  // ----- one read-only command per server -----

  /** The answer to its group is waiting on every socket of todo, nothing on others. */
  ghost predicate Awaiting<S>(handle: (S, Command) -> (S, Answer), servers: map<int, S>, due: map<int, seq<Answer>>,
                              m: map<int, ConnectionKeys>, name: seq<byte>, todo: set<int>) {
    && todo <= m.Keys <= servers.Keys == due.Keys
    && forall k | k in servers :: due[k] == if k in todo then [handle(servers[k], [name] + m[k].keys).1] else []
  }

  lemma AwaitingNext<S>(handle: (S, Command) -> (S, Answer), servers: map<int, S>, due: map<int, seq<Answer>>,
                        m: map<int, ConnectionKeys>, name: seq<byte>, todo: set<int>, socket: int)
    requires Awaiting(handle, servers, due, m, name, todo) && socket in todo
    ensures socket in m && socket in servers && socket in due
    ensures due[socket] == [handle(servers[socket], [name] + m[socket].keys).1]
    ensures Awaiting(handle, servers, due[socket := due[socket][1..]], m, name, todo - {socket})
  {
  }

  lemma AwaitingNothing<S>(handle: (S, Command) -> (S, Answer), servers: map<int, S>, due: map<int, seq<Answer>>,
                           m: map<int, ConnectionKeys>, name: seq<byte>)
    requires Awaiting(handle, servers, due, m, name, {})
    ensures due.Keys == servers.Keys && forall k | k in due :: due[k] == []
  {
  }

  lemma AwaitingConnected<S>(handle: (S, Command) -> (S, Answer), servers: map<int, S>, due: map<int, seq<Answer>>,
                             m: map<int, ConnectionKeys>, name: seq<byte>, todo: set<int>)
    requires Awaiting(handle, servers, due, m, name, todo)
    ensures m.Keys <= servers.Keys
  {
  }

  lemma AwaitingStart<S>(handle: (S, Command) -> (S, Answer), servers: map<int, S>, due: map<int, seq<Answer>>,
                         m: map<int, ConnectionKeys>, name: seq<byte>)
    requires m.Keys <= servers.Keys == due.Keys && forall k | k in due :: due[k] == []
    ensures Awaiting(handle, servers, due, m, name, {})
  {
  }

  /** The commands for the groups leave every server as it is. */
  ghost predicate OnlyReads<S>(handle: (S, Command) -> (S, Answer), servers: map<int, S>, m: map<int, ConnectionKeys>,
                               name: seq<byte>) {
    forall k | k in m && k in servers :: handle(servers[k], [name] + m[k].keys).0 == servers[k]
  }

  lemma OneGroupSent<S(!new)>(handle: (S, Command) -> (S, Answer), servers: map<int, S>, due: map<int, seq<Answer>>,
                              m: map<int, ConnectionKeys>, name: seq<byte>, asked: set<int>, socket: int)
    requires Awaiting(handle, servers, due, m, name, asked) && OnlyReads(handle, servers, m, name)
    requires socket in m && socket !in asked
    ensures socket in servers && socket in due
    ensures var own := handle(servers[socket], [name] + m[socket].keys);
      && servers[socket := own.0] == servers
      && Awaiting(handle, servers, due[socket := due[socket] + [own.1]], m, name, asked + {socket})
  {
  }

  method SendGroup<S(!new)>(c: Cluster<S>, m: map<int, ConnectionKeys>, name: seq<byte>, ghost asked: set<int>,
                            socket: int)
    requires c.Wired() && OnlyReads(c.handle, c.servers, m, name)
    requires socket in m && socket !in asked && Printable([name] + m[socket].keys)
    requires Awaiting(c.handle, c.servers, c.due, m, name, asked)
    modifies c
    ensures c.servers == old(c.servers) && c.Wired()
    ensures Awaiting(c.handle, c.servers, c.due, m, name, asked + {socket})
  {
    hide Printable, Awaiting, OnlyReads, Cluster<S>.Wired;
    OneGroupSent(c.handle, c.servers, c.due, m, name, asked, socket);
    c.SendCommand(socket, [name] + m[socket].keys);
  }

  lemma NothingAsked<S(!new)>(c: Cluster<S>, keys: seq<Key>, m: map<int, ConnectionKeys>, name: seq<byte>)
    requires c.Valid() && Grouped(c.Route(), keys, m)
    ensures c.Wired() && Awaiting(c.handle, c.servers, c.due, m, name, {})
  {
    c.RouteConnected();
    hide Grouped, Awaiting, Cluster<S>.Route;
    GroupedConnected(c.Route(), keys, m, c.servers.Keys);
    AwaitingStart(c.handle, c.servers, c.due, m, name);
  }

  /** Every group's command is sent before any reply is read. No server changes
      its state; its answer waits on every group's connection. */
  method SendGroups<S(!new)>(c: Cluster<S>, keys: seq<Key>, m: map<int, ConnectionKeys>, name: seq<byte>)
    requires c.Valid() && Grouped(c.Route(), keys, m) && Printable(keys) && |keys| < MAX_LONG && |name| + 2 <= MAX_LONG
    requires OnlyReads(c.handle, c.servers, m, name)
    modifies c
    ensures c.servers == old(c.servers) && c.Wired() && Awaiting(c.handle, c.servers, c.due, m, name, m.Keys)
  {
    NothingAsked(c, keys, m, name);
    hide Grouped, Printable, Awaiting, OnlyReads, Cluster<S>.Wired, Cluster<S>.Valid, Cluster<S>.Route;
    var todo := m.Keys;
    ghost var asked := {};
    while todo != {}
      invariant todo == m.Keys - asked && asked <= m.Keys && c.servers == old(c.servers) && c.Wired()
      invariant Awaiting(c.handle, c.servers, c.due, m, name, asked)
      decreases todo
    {
      var socket := Pick(todo);
      GroupedPrintable(c.Route(), keys, m, name, socket);
      SendGroup(c, m, name, asked, socket);
      todo, asked := todo - {socket}, asked + {socket};
    }
    assert asked == m.Keys;
  }

  /** out[indices[j]] = values[j] for every j. */
  method Scatter(out: seq<seq<byte>>, indices: seq<nat>, values: seq<seq<byte>>) returns (r: seq<seq<byte>>)
    requires |indices| == |values| && forall j | 0 <= j < |indices| :: indices[j] < |out|
    ensures |r| == |out|
    ensures forall a | 0 <= a < |out| && a !in indices :: r[a] == out[a]
    ensures forall a | a in indices :: exists j :: 0 <= j < |indices| && indices[j] == a && r[a] == values[j]
  {
    r := out;
    for j := 0 to |values|
      invariant |r| == |out|
      invariant forall a | 0 <= a < |out| && a !in indices[..j] :: r[a] == out[a]
      invariant forall a | a in indices[..j] :: exists i :: 0 <= i < j && indices[i] == a && r[a] == values[i]
    {
      assert indices[..j + 1] == indices[..j] + [indices[j]];
      r := r[indices[j] := values[j]];
    }
    assert indices[..|indices|] == indices;
  }

  /** The places of all keys whose server has answered are filled. */
  ghost predicate Filled<S>(route: Key -> int, keys: seq<Key>, servers: map<int, S>, value: (S, Key) -> Item,
                            out: seq<seq<byte>>, todo: set<int>) {
    |out| == |keys| && forall i | 0 <= i < |keys| && route(keys[i]) !in todo ::
      route(keys[i]) in servers && out[i] == Seen(value(servers[route(keys[i])], keys[i]))
  }

  /** The value of every key lands in its own place, also when a key is repeated. */
  method MGet<S(!new)>(c: Cluster<S>, keys: seq<Key>, ghost value: (S, Key) -> Item) returns (out: seq<seq<byte>>)
    requires c.Valid() && AnswersMGet(c.handle, value) && Printable(keys) && |keys| < MAX_LONG
    modifies c
    ensures c.Valid() && c.servers == old(c.servers) && |out| == |keys|
    ensures forall i | 0 <= i < |keys| ::
      var k := c.sockets[c.hasher(keys[i]) % |c.sockets|];
      k in c.servers && out[i] == Seen(value(c.servers[k], keys[i]))
  {
    c.RouteIsHash();
    hide SocketOf, Filled, AnswersMGet, Seen;
    var m := GroupKeys(c, keys);
    MGetReads(c.handle, c.servers, c.Route(), keys, m, value);
    SendGroups(c, keys, m, MGET);
    hide Awaiting, Printable, MGET, Grouped, OnlyReads;
    out := PlaceReplies(c, keys, m, value);
    AwaitingNothing(c.handle, c.servers, c.due, m, MGET);
    AllFilled(c.Route(), keys, c.servers, value, out);
  }

  /** The receiving loop: each reply's values go to the places of its group. */
  method PlaceReplies<S(!new)>(c: Cluster<S>, keys: seq<Key>, m: map<int, ConnectionKeys>,
                               ghost value: (S, Key) -> Item)
    returns (out: seq<seq<byte>>)
    requires AnswersMGet(c.handle, value) && Awaiting(c.handle, c.servers, c.due, m, MGET, m.Keys)
    requires c.sockets != [] && Grouped(c.Route(), keys, m) && |keys| <= MAX_LONG && c.Wired()
    modifies c`inbox, c`due
    ensures c.Wired() && Awaiting(c.handle, c.servers, c.due, m, MGET, {})
    ensures Filled(c.Route(), keys, c.servers, value, out, {})
  {
    out := seq(|keys|, _ => []);
    NothingFilled(c.Route(), keys, m, c.servers, value, out);
    hide Awaiting, Filled, SocketOf, MGET, AnswersMGet, Grouped, Seen, Cluster<S>.Wired;
    var todo := m.Keys;
    while todo != {}
      invariant todo <= m.Keys && c.Wired() && Awaiting(c.handle, c.servers, c.due, m, MGET, todo)
      invariant Filled(c.Route(), keys, c.servers, value, out, todo)
      decreases todo
    {
      var socket := Pick(todo);
      out := PlaceReply(c, keys, m, value, out, todo, socket);
      todo := todo - {socket};
    }
  }

  /** One group's reply: its values go to the places of its keys. */
  method PlaceReply<S(!new)>(c: Cluster<S>, ghost keys: seq<Key>, m: map<int, ConnectionKeys>,
                             ghost value: (S, Key) -> Item, before: seq<seq<byte>>, ghost todo: set<int>, socket: int)
    returns (out: seq<seq<byte>>)
    requires AnswersMGet(c.handle, value) && Awaiting(c.handle, c.servers, c.due, m, MGET, todo)
    requires c.sockets != [] && Grouped(c.Route(), keys, m) && |keys| <= MAX_LONG && c.Wired()
    requires Filled(c.Route(), keys, c.servers, value, before, todo) && socket in todo && socket in m
    modifies c`inbox, c`due
    ensures c.Wired() && Awaiting(c.handle, c.servers, c.due, m, MGET, todo - {socket})
    ensures Filled(c.Route(), keys, c.servers, value, out, todo - {socket})
  {
    hide Awaiting, Filled, SocketOf, MGET, AnswersMGet, Grouped, Seen, Cluster<S>.Wired;
    AwaitingNext(c.handle, c.servers, c.due, m, MGET, todo, socket);
    GroupSizes(c.Route(), keys, m, socket);
    MGetAnswer(c.handle, value, c.servers[socket], m[socket].keys);
    FilledSize(c.Route(), keys, c.servers, value, before, todo);
    var reply := c.RecvList(socket);
    out := Scatter(before, m[socket].indices, reply.value);
    ScatteredRight(c.Route(), keys, m, socket, c.servers, value, before, out, todo);
  }

  lemma NothingFilled<S>(route: Key -> int, keys: seq<Key>, m: map<int, ConnectionKeys>, servers: map<int, S>,
                         value: (S, Key) -> Item, out: seq<seq<byte>>)
    requires Grouped(route, keys, m) && |out| == |keys|
    ensures Filled(route, keys, servers, value, out, m.Keys)
  {
  }

  lemma MGetAnswer<S(!new)>(handle: (S, Command) -> (S, Answer), value: (S, Key) -> Item, s: S, keys: seq<Key>)
    requires AnswersMGet(handle, value) && 0 < |keys| <= MAX_LONG
    ensures handle(s, [MGET] + keys) == (s, SayMultiBulk(Values(value, s, keys)))
  {
  }

  lemma MGetReads<S(!new)>(handle: (S, Command) -> (S, Answer), servers: map<int, S>, route: Key -> int, keys: seq<Key>,
                           m: map<int, ConnectionKeys>, value: (S, Key) -> Item)
    requires AnswersMGet(handle, value) && Grouped(route, keys, m) && |keys| <= MAX_LONG
    ensures OnlyReads(handle, servers, m, MGET)
  {
    hide MGET;
    forall k | k in m && k in servers
      ensures handle(servers[k], [MGET] + m[k].keys).0 == servers[k]
    {
      MGetAnswer(handle, value, servers[k], m[k].keys);
    }
  }

  lemma GroupSizes(route: Key -> int, keys: seq<Key>, m: map<int, ConnectionKeys>, k: int)
    requires Grouped(route, keys, m) && k in m
    ensures 0 < |m[k].keys| == |m[k].indices| <= |keys|
      && forall j | 0 <= j < |m[k].indices| :: m[k].indices[j] < |keys|
  {
  }

  lemma FilledSize<S>(route: Key -> int, keys: seq<Key>, servers: map<int, S>, value: (S, Key) -> Item,
                      out: seq<seq<byte>>, todo: set<int>)
    requires Filled(route, keys, servers, value, out, todo)
    ensures |out| == |keys|
  {
  }

  lemma AllFilled<S>(route: Key -> int, keys: seq<Key>, servers: map<int, S>, value: (S, Key) -> Item,
                     out: seq<seq<byte>>)
    requires Filled(route, keys, servers, value, out, {})
    ensures |out| == |keys| && forall i | 0 <= i < |keys| ::
      route(keys[i]) in servers && out[i] == Seen(value(servers[route(keys[i])], keys[i]))
  {
  }

  lemma ScatteredRight<S>(route: Key -> int, keys: seq<Key>, m: map<int, ConnectionKeys>, socket: int,
                          servers: map<int, S>,
                          value: (S, Key) -> Item, before: seq<seq<byte>>, out: seq<seq<byte>>, todo: set<int>)
    requires Grouped(route, keys, m) && socket in m && socket in servers && |out| == |before|
    requires Filled(route, keys, servers, value, before, todo)
    requires forall a | 0 <= a < |out| && a !in m[socket].indices :: out[a] == before[a]
    requires forall a | a in m[socket].indices ::
      exists j :: 0 <= j < |m[socket].indices| && m[socket].indices[j] == a
        && out[a] == AllSeen(Values(value, servers[socket], m[socket].keys))[j]
    ensures Filled(route, keys, servers, value, out, todo - {socket})
  {
  }

  /** out is the intersection over the groups that have answered. */
  ghost predicate Intersected<S(!new)>(m: map<int, ConnectionKeys>, servers: map<int, S>, held: (S, Key) -> Held,
                                       out: set<seq<byte>>, todo: set<int>) {
    m.Keys <= servers.Keys && forall x :: x in out <==> InGroups(m, servers, held, x, todo)
  }

  ghost predicate InGroups<S(!new)>(m: map<int, ConnectionKeys>, servers: map<int, S>, held: (S, Key) -> Held,
                                    x: seq<byte>, todo: set<int>)
    requires m.Keys <= servers.Keys
  {
    forall k | k in m && k !in todo :: InAll(held, servers[k], m[k].keys, x)
  }

  ghost predicate GroupsAreSets<S(!new)>(m: map<int, ConnectionKeys>, servers: map<int, S>, held: (S, Key) -> Held,
                                         todo: set<int>) {
    m.Keys <= servers.Keys && forall k | k in m && k !in todo :: AllSets(held, servers[k], m[k].keys)
  }

  /** What a key holds at its server. */
  ghost function HeldAt<S(!new)>(route: Key -> int, servers: map<int, S>, held: (S, Key) -> Held, key: Key): Held {
    if route(key) in servers then held(servers[route(key)], key) else NotASet
  }

  ghost predicate AllHoldSets<S(!new)>(route: Key -> int, servers: map<int, S>, held: (S, Key) -> Held,
                                       keys: seq<Key>) {
    forall i | 0 <= i < |keys| :: HeldAt(route, servers, held, keys[i]).Members?
  }

  /** x is in the set of every key. */
  ghost predicate InEvery<S(!new)>(route: Key -> int, servers: map<int, S>, held: (S, Key) -> Held, keys: seq<Key>,
                                   x: seq<byte>) {
    forall i | 0 <= i < |keys| ::
      var h := HeldAt(route, servers, held, keys[i]); h.Members? && x in h.members
  }

  /** The intersection over all keys, from one intersection per server, or an error
      exactly when some key does not hold a set. The error is thrown at the first
      connection with such a key; the replies of the connections behind it stay
      unread, and the cluster is clean again exactly when there are none. With no
      keys at all, out keeps what the caller had in it. */
  method SInter<S(!new)>(c: Cluster<S>, keys: seq<Key>, out0: set<seq<byte>>, ghost held: (S, Key) -> Held)
    returns (out: RedisReader.Result<set<seq<byte>>>, size: nat, ghost failed: int)
    requires c.Valid() && AnswersSInter(c.handle, held) && Printable(keys) && |keys| < MAX_LONG
    modifies c
    ensures c.servers == old(c.servers) && c.Connected()
    ensures forall key: Key :: c.Route()(key) == c.sockets[c.hasher(key) % |c.sockets|]
    ensures out.Success? <==> AllHoldSets(c.Route(), c.servers, held, keys)
    ensures out.Success? ==> c.Valid() && size == |out.value|
    ensures keys == [] ==> out == RedisReader.Success(out0)
    ensures out.Success? && keys != [] ==>
      forall x :: x in out.value <==> InEvery(c.Route(), c.servers, held, keys, x)
    ensures out.Failure? ==>
      && out.error == ProtocolError && FailsAt(c.Route(), keys, c.servers, held, failed)
      && Unread(c.handle, c.servers, c.due, c.Route(), keys, failed)
      && (c.Valid() <==> forall i | 0 <= i < |keys| :: c.Route()(keys[i]) <= failed)
  {
    c.RouteIsHash();
    hide SocketOf;
    var m := GroupKeys(c, keys);
    GroupsOfNothing(c.Route(), keys, m);
    SInterReads(c.handle, c.servers, c.Route(), keys, m, held);
    c.RouteConnected();
    GroupedConnected(c.Route(), keys, m, c.servers.Keys);
    SendGroups(c, keys, m, SINTER);
    size := 0;
    out, failed := IntersectReplies(c, m, out0, held, keys);
    SetsInGroups(c.Route(), keys, m, c.servers, held);
    hide AllHoldSets, InEvery, Grouped, Awaiting, FirstWithout, GroupsAreSets, FailsAt, Unread, Intersected,
      AnswersSInter, Above, Printable;
    if out.Success? {
      size := |out.value|;
      AwaitingNothing(c.handle, c.servers, c.due, m, SINTER);
      InAllKeys(c.Route(), keys, m, c.servers, held, out.value);
    } else {
      FailedKey(c.Route(), keys, m, c.servers, held, failed);
      LeftUnread(c.handle, c.servers, c.due, c.Route(), keys, m, failed);
    }
  }

  /** Some key at the connection holds no set; all keys at earlier connections do. */
  ghost predicate FailsAt<S(!new)>(route: Key -> int, keys: seq<Key>, servers: map<int, S>, held: (S, Key) -> Held,
                                   socket: int) {
    && (exists i :: 0 <= i < |keys| && route(keys[i]) == socket && HeldAt(route, servers, held, keys[i]).NotASet?)
    && forall i | 0 <= i < |keys| && route(keys[i]) < socket :: HeldAt(route, servers, held, keys[i]).Members?
  }

  /** On the connections behind the one that failed waits the answer to their SINTER. */
  ghost predicate Unread<S(!new)>(handle: (S, Command) -> (S, Answer), servers: map<int, S>, due: map<int, seq<Answer>>,
                                  route: Key -> int, keys: seq<Key>, failed: int) {
    && due.Keys == servers.Keys
    && forall k | k in servers ::
      var group := KeysAt(route, keys, k);
      due[k] == if k > failed && group != [] then [handle(servers[k], [SINTER] + group).1] else []
  }

  lemma FailedKey<S(!new)>(route: Key -> int, keys: seq<Key>, m: map<int, ConnectionKeys>, servers: map<int, S>,
                           held: (S, Key) -> Held, failed: int)
    requires Grouped(route, keys, m) && FirstWithout(m, servers, held, failed)
    ensures FailsAt(route, keys, servers, held, failed)
  {
    hide Grouped;
    var j :| 0 <= j < |m[failed].keys| && !held(servers[failed], m[failed].keys[j]).Members?;
    var i := KeyInGroup(route, keys, m, failed, j);
    assert HeldAt(route, servers, held, keys[i]).NotASet?;
    forall a | 0 <= a < |keys| && route(keys[a]) < failed
      ensures HeldAt(route, servers, held, keys[a]).Members?
    {
      var b := KeyOfGroup(route, keys, m, a);
    }
  }

  lemma LeftUnread<S(!new)>(handle: (S, Command) -> (S, Answer), servers: map<int, S>, due: map<int, seq<Answer>>,
                            route: Key -> int, keys: seq<Key>, m: map<int, ConnectionKeys>, failed: int)
    requires Grouped(route, keys, m) && Awaiting(handle, servers, due, m, SINTER, Above(m, failed))
    requires forall key: Key :: route(key) in servers
    ensures Unread(handle, servers, due, route, keys, failed)
    ensures (forall k | k in due :: due[k] == []) <==> (forall i | 0 <= i < |keys| :: route(keys[i]) <= failed)
  {
    hide KeysAt, SINTER;
    assert Unread(handle, servers, due, route, keys, failed);
    UnreadNothing(handle, servers, due, route, keys, failed);
  }

  lemma UnreadNothing<S(!new)>(handle: (S, Command) -> (S, Answer), servers: map<int, S>, due: map<int, seq<Answer>>,
                               route: Key -> int, keys: seq<Key>, failed: int)
    requires Unread(handle, servers, due, route, keys, failed) && forall key: Key :: route(key) in servers
    ensures (forall k | k in due :: due[k] == []) <==> (forall i | 0 <= i < |keys| :: route(keys[i]) <= failed)
  {
    hide KeysAt, SINTER;
    forall i | 0 <= i < |keys|
      ensures route(keys[i]) in due && KeysAt(route, keys, route(keys[i])) != []
    {
      KeyCounted(route, keys, i);
    }
    forall k | k in due && KeysAt(route, keys, k) != []
      ensures exists i :: 0 <= i < |keys| && route(keys[i]) == k
    {
      var i := KeyThere(route, keys, k);
    }
  }

  lemma {:induction false} KeyCounted(route: Key -> int, keys: seq<Key>, i: nat)
    requires i < |keys|
    ensures KeysAt(route, keys, route(keys[i])) != []
  {
    if i > 0 {
      KeyCounted(route, keys[1..], i - 1);
    }
  }

  lemma {:induction false} KeyThere(route: Key -> int, keys: seq<Key>, k: int) returns (i: nat)
    requires KeysAt(route, keys, k) != []
    ensures i < |keys| && route(keys[i]) == k
  {
    i := 0;
    if route(keys[0]) != k {
      var j := KeyThere(route, keys[1..], k);
      i := j + 1;
    }
  }

  /** The state of the receiving loop: the groups that have answered are sets, and out
      is their intersection, or still the caller's set before the first answer. */
  ghost predicate Gathered<S(!new)>(m: map<int, ConnectionKeys>, servers: map<int, S>, held: (S, Key) -> Held,
                                    out0: set<seq<byte>>, out: set<seq<byte>>, todo: set<int>, i: nat) {
    && GroupsAreSets(m, servers, held, todo)
    && if i == 0 then todo == m.Keys && out == out0 else m != map[] && Intersected(m, servers, held, out, todo)
  }

  lemma GatheredStart<S(!new)>(m: map<int, ConnectionKeys>, servers: map<int, S>, held: (S, Key) -> Held,
                               out0: set<seq<byte>>)
    requires m.Keys <= servers.Keys
    ensures Gathered(m, servers, held, out0, out0, m.Keys, 0)
  {
  }

  lemma GatheredNext<S(!new)>(m: map<int, ConnectionKeys>, servers: map<int, S>, held: (S, Key) -> Held,
                              out0: set<seq<byte>>, out: set<seq<byte>>, cur: set<seq<byte>>, todo: set<int>, i: nat,
                              socket: int)
    requires Gathered(m, servers, held, out0, out, todo, i) && socket in todo && todo <= m.Keys && socket in servers
    requires AllSets(held, servers[socket], m[socket].keys)
    requires forall x :: x in cur <==> InAll(held, servers[socket], m[socket].keys, x)
    ensures Gathered(m, servers, held, out0, if i > 0 then out * cur else cur, todo - {socket}, i + 1)
  {
    hide AllSets, InAll, Intersected;
    GroupJudged(m, servers, held, todo, socket);
    IntersectedNext(m, servers, held, out, cur, todo, socket);
  }

  lemma GatheredEnd<S(!new)>(m: map<int, ConnectionKeys>, servers: map<int, S>, held: (S, Key) -> Held,
                             out0: set<seq<byte>>, out: set<seq<byte>>, i: nat)
    requires Gathered(m, servers, held, out0, out, {}, i)
    ensures GroupsAreSets(m, servers, held, {})
    ensures if m == map[] then out == out0 else Intersected(m, servers, held, out, {})
  {
    hide Intersected, GroupsAreSets;
    assert m.Keys == {} ==> m == map[];
  }

  /** One group's reply, as a set. */
  method RecvGroup<S(!new)>(c: Cluster<S>, m: map<int, ConnectionKeys>, ghost held: (S, Key) -> Held,
                            ghost todo: set<int>, socket: int)
    returns (cur: RedisReader.Result<set<seq<byte>>>)
    requires AnswersSInter(c.handle, held) && Awaiting(c.handle, c.servers, c.due, m, SINTER, todo) && c.Wired()
    requires socket in todo && socket in m && m[socket].keys != [] && socket in c.servers
    modifies c`inbox, c`due
    ensures c.Wired() && Awaiting(c.handle, c.servers, c.due, m, SINTER, todo - {socket})
    ensures AllSets(held, c.servers[socket], m[socket].keys) ==>
      cur.Success? && (forall x :: x in cur.value <==> InAll(held, c.servers[socket], m[socket].keys, x))
    ensures !AllSets(held, c.servers[socket], m[socket].keys) ==> cur == RedisReader.Failure(ProtocolError)
  {
    hide Awaiting, AnswersSInter, SINTER, AllSets, InAll, AllSeen, Cluster<S>.Wired;
    AwaitingNext(c.handle, c.servers, c.due, m, SINTER, todo, socket);
    SInterAnswer(c.handle, held, c.servers[socket], m[socket].keys);
    var reply := c.RecvList(socket);
    if reply.Failure? {
      return RedisReader.Failure(reply.error);
    }
    return RedisReader.Success(set x | x in reply.value);
  }

  method Least(s: set<int>) returns (x: int)
    requires s != {}
    ensures x in s && forall y | y in s :: x <= y
  {
    LeastExists(s);
    x :| x in s && forall y | y in s :: x <= y;
  }

  lemma {:induction false} LeastExists(s: set<int>)
    requires s != {}
    ensures exists x :: x in s && forall y | y in s :: x <= y
    decreases s
  {
    assert (forall k :: k !in s) ==> s == {};
    var x :| x in s;
    var least := x;
    if s != {x} {
      assert s == (s - {x}) + {x};
      LeastExists(s - {x});
      var z :| z in s - {x} && forall y | y in s - {x} :: z <= y;
      least := if x < z then x else z;
    }
    forall y | y in s
      ensures least <= y
    {
      assert y == x || y in s - {x};
    }
  }

  /** The connections of todo stand behind those that are done. */
  ghost predicate InOrder(m: map<int, ConnectionKeys>, todo: set<int>) {
    forall k, j | k in m && k !in todo && j in todo :: k < j
  }

  lemma OrderStarts(m: map<int, ConnectionKeys>)
    ensures InOrder(m, m.Keys)
  {
  }

  lemma OrderGoesOn(m: map<int, ConnectionKeys>, todo: set<int>, socket: int)
    requires InOrder(m, todo) && socket in todo && forall j | j in todo :: socket <= j
    ensures InOrder(m, todo - {socket})
  {
  }

  /** The groups behind a connection. */
  ghost function Above(m: map<int, ConnectionKeys>, socket: int): set<int> {
    set k | k in m && k > socket
  }

  /** The group at socket is the first, in the order of the connections, that has a
      key without a set. */
  ghost predicate FirstWithout<S(!new)>(m: map<int, ConnectionKeys>, servers: map<int, S>, held: (S, Key) -> Held,
                                        socket: int) {
    && m.Keys <= servers.Keys && socket in m && !AllSets(held, servers[socket], m[socket].keys)
    && forall k | k in m && k < socket :: AllSets(held, servers[k], m[k].keys)
  }

  /** The receiving loop, in the order of the connections: the first reply is taken
      over, later ones are intersected, and an error reply is thrown at once. */
  method IntersectReplies<S(!new)>(c: Cluster<S>, m: map<int, ConnectionKeys>, out0: set<seq<byte>>,
                                   ghost held: (S, Key) -> Held, ghost keys: seq<Key>)
    returns (result: RedisReader.Result<set<seq<byte>>>, ghost failed: int)
    requires AnswersSInter(c.handle, held) && Awaiting(c.handle, c.servers, c.due, m, SINTER, m.Keys)
    requires c.sockets != [] && Grouped(c.Route(), keys, m) && c.Wired()
    modifies c`inbox, c`due
    ensures c.Wired() && (result.Success? <==> GroupsAreSets(m, c.servers, held, {}))
    ensures result.Success? ==> Awaiting(c.handle, c.servers, c.due, m, SINTER, {})
    ensures result.Success? ==>
      if m == map[] then result.value == out0 else Intersected(m, c.servers, held, result.value, {})
    ensures result.Failure? ==>
      && result.error == ProtocolError && FirstWithout(m, c.servers, held, failed)
      && Awaiting(c.handle, c.servers, c.due, m, SINTER, Above(m, failed))
  {
    AwaitingConnected(c.handle, c.servers, c.due, m, SINTER, m.Keys);
    GatheredStart(m, c.servers, held, out0);
    hide Awaiting, Gathered, Intersected, AnswersSInter, SINTER, Grouped, SocketOf, GroupsAreSets, AllSets, InAll,
      FirstWithout, Above, InOrder, Cluster<S>.Wired;
    OrderStarts(m);
    var out, i := out0, 0;
    var todo := m.Keys;
    failed := 0;
    while todo != {}
      invariant todo <= m.Keys && Awaiting(c.handle, c.servers, c.due, m, SINTER, todo) && c.Wired()
      invariant Gathered(m, c.servers, held, out0, out, todo, i)
      invariant InOrder(m, todo)
      decreases todo
    {
      var socket := Least(todo);
      GroupSizes(c.Route(), keys, m, socket);
      GatheredJudged(m, c.servers, held, out0, out, todo, i, socket);
      var cur := RecvGroup(c, m, held, todo, socket);
      if cur.Failure? {
        FailedFirst(m, c.servers, held, out0, out, todo, i, socket);
        return RedisReader.Failure(cur.error), socket;
      }
      GatheredNext(m, c.servers, held, out0, out, cur.value, todo, i, socket);
      OrderGoesOn(m, todo, socket);
      out := if i > 0 then out * cur.value else cur.value;
      i := i + 1;
      todo := todo - {socket};
    }
    GatheredEnd(m, c.servers, held, out0, out, i);
    result := RedisReader.Success(out);
  }

  lemma FailedFirst<S(!new)>(m: map<int, ConnectionKeys>, servers: map<int, S>, held: (S, Key) -> Held,
                             out0: set<seq<byte>>, out: set<seq<byte>>, todo: set<int>, i: nat, socket: int)
    requires Gathered(m, servers, held, out0, out, todo, i) && todo <= m.Keys
    requires socket in todo && (forall j | j in todo :: socket <= j)
    requires InOrder(m, todo)
    requires socket in servers && !AllSets(held, servers[socket], m[socket].keys)
    ensures FirstWithout(m, servers, held, socket) && Above(m, socket) == todo - {socket}
  {
    hide AllSets, Intersected;
  }

  lemma GatheredJudged<S(!new)>(m: map<int, ConnectionKeys>, servers: map<int, S>, held: (S, Key) -> Held,
                                out0: set<seq<byte>>, out: set<seq<byte>>, todo: set<int>, i: nat, socket: int)
    requires Gathered(m, servers, held, out0, out, todo, i) && socket in m
    ensures socket in servers
    ensures GroupsAreSets(m, servers, held, {}) ==> AllSets(held, servers[socket], m[socket].keys)
  {
    hide AllSets, Intersected;
  }

  lemma GroupJudged<S(!new)>(m: map<int, ConnectionKeys>, servers: map<int, S>, held: (S, Key) -> Held, todo: set<int>,
                             socket: int)
    requires GroupsAreSets(m, servers, held, todo) && socket in m && socket in servers
    ensures AllSets(held, servers[socket], m[socket].keys) ==> GroupsAreSets(m, servers, held, todo - {socket})
    ensures GroupsAreSets(m, servers, held, {}) ==> AllSets(held, servers[socket], m[socket].keys)
  {
    hide AllSets;
  }

  lemma SInterAnswer<S(!new)>(handle: (S, Command) -> (S, Answer), held: (S, Key) -> Held, s: S, keys: seq<Key>)
    requires AnswersSInter(handle, held) && keys != []
    ensures var r := handle(s, [SINTER] + keys);
      && r.0 == s
      && (AllSets(held, s, keys) ==>
        r.1.SayMultiBulk? && forall x :: x in AllSeen(r.1.items) <==> InAll(held, s, keys, x))
      && (!AllSets(held, s, keys) ==> r.1.SayError?)
  {
    hide AllSets, InAll, AllSeen;
    assert SaysIntersection(held, s, keys, handle(s, [SINTER] + keys).1);
  }

  lemma SInterReads<S(!new)>(handle: (S, Command) -> (S, Answer), servers: map<int, S>, route: Key -> int,
                             keys: seq<Key>, m: map<int, ConnectionKeys>, held: (S, Key) -> Held)
    requires AnswersSInter(handle, held) && Grouped(route, keys, m)
    ensures OnlyReads(handle, servers, m, SINTER)
  {
    hide SINTER, AllSets, InAll, AllSeen;
    forall k | k in m && k in servers
      ensures handle(servers[k], [SINTER] + m[k].keys).0 == servers[k]
    {
      SInterAnswer(handle, held, servers[k], m[k].keys);
    }
  }

  lemma IntersectedNext<S(!new)>(m: map<int, ConnectionKeys>, servers: map<int, S>, held: (S, Key) -> Held,
                                 out: set<seq<byte>>, cur: set<seq<byte>>, todo: set<int>, socket: int)
    requires socket in todo && todo <= m.Keys && socket in servers
    requires forall x :: x in cur <==> InAll(held, servers[socket], m[socket].keys, x)
    ensures Intersected(m, servers, held, out, todo) ==> Intersected(m, servers, held, out * cur, todo - {socket})
    ensures todo == m.Keys <= servers.Keys ==> Intersected(m, servers, held, cur, todo - {socket})
  {
    hide InAll;
  }

  lemma GroupsOfNothing(route: Key -> int, keys: seq<Key>, m: map<int, ConnectionKeys>)
    requires Grouped(route, keys, m)
    ensures keys == [] <==> m == map[]
  {
    if keys != [] {
      assert route(keys[0]) in m;
    } else {
      assert forall k :: k !in m;
    }
  }

  /** Every key is in some group, and every key of a group is a key. */
  lemma KeyOfGroup(route: Key -> int, keys: seq<Key>, m: map<int, ConnectionKeys>, i: nat) returns (j: nat)
    requires Grouped(route, keys, m) && i < |keys|
    ensures route(keys[i]) in m && j < |m[route(keys[i])].keys| && m[route(keys[i])].keys[j] == keys[i]
  {
    var k := route(keys[i]);
    j :| 0 <= j < |m[k].indices| && m[k].indices[j] == i;
  }

  lemma KeyInGroup(route: Key -> int, keys: seq<Key>, m: map<int, ConnectionKeys>, k: int, j: nat) returns (i: nat)
    requires Grouped(route, keys, m) && k in m && j < |m[k].keys|
    ensures i < |keys| && keys[i] == m[k].keys[j] && route(keys[i]) == k
  {
    i := m[k].indices[j];
  }

  lemma GroupIsSets<S(!new)>(m: map<int, ConnectionKeys>, servers: map<int, S>, held: (S, Key) -> Held, k: int)
    requires GroupsAreSets(m, servers, held, {}) && k in m
    ensures k in servers && AllSets(held, servers[k], m[k].keys)
  {
    hide AllSets;
  }

  lemma InOneGroup<S(!new)>(m: map<int, ConnectionKeys>, servers: map<int, S>, held: (S, Key) -> Held, x: seq<byte>,
                            k: int)
    requires m.Keys <= servers.Keys && InGroups(m, servers, held, x, {}) && k in m
    ensures k in servers && InAll(held, servers[k], m[k].keys, x)
  {
    hide InAll;
  }

  lemma SetsInGroups<S(!new)>(route: Key -> int, keys: seq<Key>, m: map<int, ConnectionKeys>, servers: map<int, S>,
                              held: (S, Key) -> Held)
    requires Grouped(route, keys, m) && m.Keys <= servers.Keys
    ensures GroupsAreSets(m, servers, held, {}) <==> AllHoldSets(route, servers, held, keys)
  {
    hide Grouped;
    if GroupsAreSets(m, servers, held, {}) {
      forall i | 0 <= i < |keys|
        ensures HeldAt(route, servers, held, keys[i]).Members?
      {
        var j := KeyOfGroup(route, keys, m, i);
        GroupIsSets(m, servers, held, route(keys[i]));
      }
    }
    if AllHoldSets(route, servers, held, keys) {
      forall k, j | k in m && 0 <= j < |m[k].keys|
        ensures held(servers[k], m[k].keys[j]).Members?
      {
        var i := KeyInGroup(route, keys, m, k, j);
      }
    }
  }

  lemma InAllKeys<S(!new)>(route: Key -> int, keys: seq<Key>, m: map<int, ConnectionKeys>, servers: map<int, S>,
                           held: (S, Key) -> Held, out: set<seq<byte>>)
    requires Grouped(route, keys, m) && m.Keys <= servers.Keys
    ensures Intersected(m, servers, held, out, {}) ==>
      forall x :: x in out <==> InEvery(route, servers, held, keys, x)
  {
    hide Grouped, InGroups, InEvery;
    forall x
      ensures InGroups(m, servers, held, x, {}) <==> InEvery(route, servers, held, keys, x)
    {
      InAllGroups(route, keys, m, servers, held, x);
    }
  }

  lemma InAllGroups<S(!new)>(route: Key -> int, keys: seq<Key>, m: map<int, ConnectionKeys>, servers: map<int, S>,
                             held: (S, Key) -> Held, x: seq<byte>)
    requires Grouped(route, keys, m) && m.Keys <= servers.Keys
    ensures InGroups(m, servers, held, x, {}) <==> InEvery(route, servers, held, keys, x)
  {
    hide Grouped;
    if InGroups(m, servers, held, x, {}) {
      forall i | 0 <= i < |keys|
        ensures var h := HeldAt(route, servers, held, keys[i]); h.Members? && x in h.members
      {
        var j := KeyOfGroup(route, keys, m, i);
        InOneGroup(m, servers, held, x, route(keys[i]));
      }
    }
    if InEvery(route, servers, held, keys, x) {
      forall k | k in m
        ensures InAll(held, servers[k], m[k].keys, x)
      {
        forall j | 0 <= j < |m[k].keys|
          ensures held(servers[k], m[k].keys[j]).Members? && x in held(servers[k], m[k].keys[j]).members
        {
          var i := KeyInGroup(route, keys, m, k, j);
        }
      }
    }
  }
}
