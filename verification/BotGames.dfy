/** The server's list of a bot's games (brtServer/server.cpp, server.h): a vector
    searched from the front, which behaves as a map from game names. */
module BotGames {
  import opened Bytes
  import opened Framing
  import opened GameInfo
  import opened BotReports
  import opened Sequences

  datatype Message = Message(from: Name, text: seq<byte>)

  /** What is known about one game; the order of its players does not count. */
  datatype GameView = GameView(hostCounter: uint32, started: bool, players: multiset<Name>, messages: seq<Message>)

  type Model = map<Name, GameView>

  // ----- the map -----

  /** The new view of the game an event names, when the game exists. */
  function Changed(v: GameView, e: Event): GameView {
    match e
    case Chat(hostCounter, _, from, text) =>
      if v.hostCounter == hostCounter then v.(messages := v.messages + [Message(from, text)]) else v
    case Started(_) => v.(started := true)
    case Join(login, _) => v.(players := v.players + multiset{login})
    case Leave(login, _) => v.(players := v.players - multiset{login})
    case _ => v
  }

  function Apply(m: Model, e: Event): Model {
    match e
    case Other => m
    case Create(game, hostCounter) => if game in m then m else m[game := GameView(hostCounter, false, multiset{}, [])]
    case Ended(game) => m - {game}
    case _ => if e.game in m then m[e.game := Changed(m[e.game], e)] else m
  }

  function ApplyAll(m: Model, events: seq<Event>): Model
    decreases |events|
  {
    if events == [] then m else ApplyAll(Apply(m, events[0]), events[1..])
  }

  // ----- the list -----

  class Game {
    const name: Name
    const hostCounter: uint32
    var started: bool
    var players: seq<Name>
    var messages: seq<Message>

    constructor (name: Name, hostCounter: uint32)
      ensures this.name == name && this.hostCounter == hostCounter
      ensures View() == GameView(hostCounter, false, multiset{}, [])
    {
      this.name, this.hostCounter := name, hostCounter;
      started, players, messages := false, [], [];
    }

    /** The first player of that name goes. */
    method Erase(login: Name)
      modifies this`players
      ensures login !in old(players) ==> players == old(players)
      ensures login in old(players) ==> exists k ::
        0 <= k < |old(players)| && old(players)[k] == login && login !in old(players)[..k]
          && players == old(players)[..k] + old(players)[k + 1..]
      ensures multiset(players) == old(multiset(players)) - multiset{login}
    {
      var k := 0;
      while k < |players| && players[k] != login
        invariant k <= |players| && login !in players[..k]
      {
        k := k + 1;
      }
      if k < |players| {
        TakeOut(players, k);
        players := players[..k] + players[k + 1..];
      } else {
        assert login !in players;
      }
    }

    function View(): GameView
      reads this
    {
      GameView(hostCounter, started, multiset(players), messages)
    }
  }

  datatype Entry = Entry(name: Name, view: GameView)

  /** No two entries share a name, and the entries say exactly what the map says. */
  ghost predicate Models(entries: seq<Entry>, m: Model) {
    NamesDistinct(entries) && EntriesIn(entries, m) && AllListed(entries, m)
  }

  ghost predicate NamesDistinct(entries: seq<Entry>) {
    forall i, j | 0 <= i < j < |entries| :: entries[i].name != entries[j].name
  }

  ghost predicate EntriesIn(entries: seq<Entry>, m: Model) {
    forall i | 0 <= i < |entries| :: entries[i].name in m && m[entries[i].name] == entries[i].view
  }

  ghost predicate AllListed(entries: seq<Entry>, m: Model) {
    forall n | n in m :: exists i :: 0 <= i < |entries| && entries[i].name == n
  }

  lemma ModelsAbsent(entries: seq<Entry>, m: Model, n: Name)
    requires Models(entries, m) && forall i | 0 <= i < |entries| :: entries[i].name != n
    ensures n !in m
  {
  }

  lemma ModelsSnoc(entries: seq<Entry>, m: Model, n: Name, v: GameView)
    requires Models(entries, m) && n !in m
    ensures Models(entries + [Entry(n, v)], m[n := v])
  {
    var more := entries + [Entry(n, v)];
    assert forall i | 0 <= i < |entries| :: more[i] == entries[i];
    assert more[|entries|].name == n;
  }

  lemma ModelsErase(entries: seq<Entry>, m: Model, k: nat)
    requires Models(entries, m) && k < |entries|
    ensures Models(entries[..k] + entries[k + 1..], m - {entries[k].name})
  {
    hide Models;
    var less := entries[..k] + entries[k + 1..];
    ErasedAt(entries, k);
    ModelsSkip(entries, m, k, less);
  }

  lemma ErasedAt<T>(s: seq<T>, k: nat)
    requires k < |s|
    ensures var less := s[..k] + s[k + 1..];
      && |less| == |s| - 1
      && (forall i | 0 <= i < k :: less[i] == s[i]) && forall i | k <= i < |less| :: less[i] == s[i + 1]
  {
  }

  ghost predicate Skips(entries: seq<Entry>, k: nat, less: seq<Entry>) {
    && k < |entries| == |less| + 1
    && (forall i | 0 <= i < k :: less[i] == entries[i]) && forall i | k <= i < |less| :: less[i] == entries[i + 1]
  }

  lemma ModelsSkip(entries: seq<Entry>, m: Model, k: nat, less: seq<Entry>)
    requires Models(entries, m) && Skips(entries, k, less)
    ensures Models(less, m - {entries[k].name})
  {
    hide NamesDistinct, EntriesIn, AllListed;
    SkipDistinct(entries, k, less);
    SkipIn(entries, m, k, less);
    SkipListed(entries, m, k, less);
  }

  lemma SkipDistinct(entries: seq<Entry>, k: nat, less: seq<Entry>)
    requires NamesDistinct(entries) && Skips(entries, k, less)
    ensures NamesDistinct(less) && forall i | 0 <= i < |less| :: less[i].name != entries[k].name
  {
  }

  lemma SkipIn(entries: seq<Entry>, m: Model, k: nat, less: seq<Entry>)
    requires EntriesIn(entries, m) && Skips(entries, k, less)
    requires forall i | 0 <= i < |less| :: less[i].name != entries[k].name
    ensures EntriesIn(less, m - {entries[k].name})
  {
  }

  lemma SkipListed(entries: seq<Entry>, m: Model, k: nat, less: seq<Entry>)
    requires AllListed(entries, m) && Skips(entries, k, less)
    ensures AllListed(less, m - {entries[k].name})
  {
    forall n | n in m && n != entries[k].name
      ensures exists i :: 0 <= i < |less| && less[i].name == n
    {
      var i :| 0 <= i < |entries| && entries[i].name == n;
      assert less[if i < k then i else i - 1].name == n;
    }
  }

  lemma ModelsUpdate(entries: seq<Entry>, m: Model, k: nat, v: GameView)
    requires Models(entries, m) && k < |entries|
    ensures Models(entries[k := Entry(entries[k].name, v)], m[entries[k].name := v])
  {
    var next := entries[k := Entry(entries[k].name, v)];
    assert forall i | 0 <= i < |entries| :: next[i].name == entries[i].name;
  }

  /** What an event does to the game found at position k. */
  lemma ModelsChanged(entries: seq<Entry>, m: Model, k: nat, e: Event)
    requires Models(entries, m) && k < |entries| && !e.Other? && !e.Create? && !e.Ended? && e.game == entries[k].name
    ensures Models(entries[k := Entry(e.game, Changed(entries[k].view, e))], Apply(m, e))
  {
    hide Changed;
    ModelsUpdate(entries, m, k, Changed(entries[k].view, e));
  }

  lemma ModelsUnchanged(entries: seq<Entry>, m: Model, e: Event)
    requires Models(entries, m) && !e.Other? && !e.Create?
    requires forall i | 0 <= i < |entries| :: entries[i].name != e.game
    ensures Models(entries, Apply(m, e))
  {
  }

  class BotData {
    var gamesList: seq<Game>

    constructor ()
      ensures Mirrors(map[])
    {
      gamesList := [];
    }

    ghost function Games(): set<Game>
      reads this
    {
      set g | g in gamesList
    }

    ghost function Entries(): (r: seq<Entry>)
      reads this, gamesList
      ensures |r| == |gamesList|
      ensures forall i | 0 <= i < |r| :: r[i] == Entry(gamesList[i].name, gamesList[i].View())
    {
      seq(|gamesList|, i requires 0 <= i < |gamesList| reads this, gamesList =>
        Entry(gamesList[i].name, gamesList[i].View()))
    }

    ghost predicate Mirrors(m: Model)
      reads this, gamesList
    {
      Models(Entries(), m)
    }

    /** The search every case does: the first game of that name. */
    method Find(name: Name) returns (i: nat)
      ensures i <= |gamesList| && (i < |gamesList| ==> gamesList[i].name == name)
      ensures forall j | 0 <= j < i :: Entries()[j].name != name
    {
      i := 0;
      while i < |gamesList| && gamesList[i].name != name
        invariant i <= |gamesList| && forall j | 0 <= j < i :: Entries()[j].name != name
      {
        i := i + 1;
      }
    }

    method GameCreated(name: Name, hostCounter: uint32, ghost m: Model)
      requires Mirrors(m)
      modifies this
      ensures Mirrors(Apply(m, Create(name, hostCounter)))
      ensures fresh(Games() - old(Games()))
    {
      hide Models;
      var i := Find(name);
      ghost var entries := Entries();
      if i == |gamesList| {
        var game := new Game(name, hostCounter);
        ModelsAbsent(entries, m, name);
        ModelsSnoc(entries, m, name, game.View());
        gamesList := gamesList + [game];
        assert Entries() == entries + [Entry(name, game.View())];
      } else {
        ModelsHas(entries, m, i);
      }
    }

    method GameEnded(name: Name, ghost m: Model)
      requires Mirrors(m)
      modifies this
      ensures Mirrors(Apply(m, Ended(name)))
      ensures Games() <= old(Games())
    {
      hide Models;
      var i := Find(name);
      ghost var entries := Entries();
      if i < |gamesList| {
        ModelsErase(entries, m, i);
        gamesList := gamesList[..i] + gamesList[i + 1..];
        assert Entries() == entries[..i] + entries[i + 1..];
      } else {
        ModelsUnchanged(entries, m, Ended(name));
      }
    }

    /** Objects in the list are distinct, so changing one changes one entry. */
    lemma OneEntry(m: Model, i: nat)
      requires Mirrors(m) && i < |gamesList|
      ensures forall j | 0 <= j < |gamesList| && j != i ::
        gamesList[j] != gamesList[i] && gamesList[j].name != gamesList[i].name
    {
      forall j | 0 <= j < |gamesList| && j != i
        ensures gamesList[j].name != gamesList[i].name
      {
        assert Entries()[j].name != Entries()[i].name;
      }
    }

    /** What the list says of each game is what the events say of it. */
    lemma GamesTold(m: Model, events: seq<Event>)
      requires Mirrors(ApplyAll(m, events))
      ensures forall g | g in gamesList && g.name in m && Ended(g.name) !in events ::
        Tells(g.View(), m[g.name], g.name, events)
    {
      hide ApplyAll, Tells;
      forall g | g in gamesList && g.name in m && Ended(g.name) !in events
        ensures Tells(g.View(), m[g.name], g.name, events)
      {
        HistoryTold(m, events, g.name);
        var i :| 0 <= i < |gamesList| && gamesList[i] == g;
        assert Entries()[i] == Entry(g.name, g.View());
      }
    }

    method GameStarted(name: Name, ghost m: Model)
      requires Mirrors(m)
      modifies Games()
      ensures Mirrors(Apply(m, Started(name))) && gamesList == old(gamesList)
      ensures forall g | g in gamesList :: g.started <==> old(g.started) || g.name == name
    {
      hide Models, Apply;
      var i := Find(name);
      ghost var entries := Entries();
      if i < |gamesList| {
        OneEntry(m, i);
        ModelsChanged(entries, m, i, Started(name));
        gamesList[i].started := true;
        assert Entries() == entries[i := Entry(name, Changed(entries[i].view, Started(name)))];
      } else {
        ModelsUnchanged(entries, m, Started(name));
      }
    }

    method PlayerJoined(login: Name, name: Name, ghost m: Model)
      requires Mirrors(m)
      modifies Games()
      ensures Mirrors(Apply(m, Join(login, name))) && gamesList == old(gamesList)
      ensures forall g | g in gamesList ::
        g.players == if g.name == name then old(g.players) + [login] else old(g.players)
    {
      hide Models, Apply;
      var i := Find(name);
      ghost var entries := Entries();
      if i < |gamesList| {
        OneEntry(m, i);
        ModelsChanged(entries, m, i, Join(login, name));
        gamesList[i].players := gamesList[i].players + [login];
        assert Entries() == entries[i := Entry(name, Changed(entries[i].view, Join(login, name)))];
      } else {
        ModelsUnchanged(entries, m, Join(login, name));
      }
    }

    /** The first player of that name is taken out, if there is one. */
    method PlayerLeft(login: Name, name: Name, ghost m: Model)
      requires Mirrors(m)
      modifies Games()
      ensures Mirrors(Apply(m, Leave(login, name))) && gamesList == old(gamesList)
      ensures forall g | g in gamesList && g.name != name :: g.players == old(g.players)
      ensures forall g | g in gamesList && g.name == name ::
        multiset(g.players) == old(multiset(g.players)) - multiset{login}
    {
      hide Models, Apply;
      var i := Find(name);
      ghost var entries := Entries();
      if i < |gamesList| {
        OneEntry(m, i);
        ModelsChanged(entries, m, i, Leave(login, name));
        gamesList[i].Erase(login);
        assert gamesList[i].View() == Changed(entries[i].view, Leave(login, name));
        hide Changed;
        assert Entries() == entries[i := Entry(name, Changed(entries[i].view, Leave(login, name)))];
      } else {
        ModelsUnchanged(entries, m, Leave(login, name));
      }
    }

    /** Only the game with both the name and the host counter gets the message. */
    method GameChat(hostCounter: uint32, name: Name, from: Name, text: seq<byte>, ghost m: Model)
      requires Mirrors(m)
      modifies Games()
      ensures Mirrors(Apply(m, Chat(hostCounter, name, from, text))) && gamesList == old(gamesList)
      ensures forall g | g in gamesList ::
        g.messages == if g.name == name && g.hostCounter == hostCounter then old(g.messages) + [Message(from, text)]
                      else old(g.messages)
    {
      hide Models, Apply;
      var i := 0;
      ghost var entries := Entries();
      while i < |gamesList| && !(gamesList[i].name == name && gamesList[i].hostCounter == hostCounter)
        invariant i <= |gamesList|
        invariant forall j | 0 <= j < i :: !(gamesList[j].name == name && gamesList[j].hostCounter == hostCounter)
      {
        i := i + 1;
      }
      ghost var e := Chat(hostCounter, name, from, text);
      if i < |gamesList| {
        OneEntry(m, i);
        ModelsChanged(entries, m, i, e);
        gamesList[i].messages := gamesList[i].messages + [Message(from, text)];
        assert Entries() == entries[i := Entry(name, Changed(entries[i].view, e))];
      } else {
        NoSuchChat(entries, m, e);
      }
    }

    /** The part of the packet switch that concerns the game list. */
    method HandlePacket(packet: CommandPacket, ghost m: Model)
      requires Mirrors(m) && Readable(packet)
      modifies this, Games()
      ensures Mirrors(Apply(m, EventOf(packet)))
      ensures fresh(Games() - old(Games()))
    {
      hide Models, CStringAt, U32At, Apply, Parse;
      var data := packet.data;
      AppliedOther(m);
      if packet.packetType == R_PROXY_CONSTANT {
      } else if packet.packetType == W3GS_HEADER_CONSTANT {
        if packet.id == W3GS_GAMEINFO {
          var parsed, savedGame := ParseGameInfo(data);
          GameCreated(parsed.gameName, parsed.hostCounter, m);
        }
      } else if packet.packetType == PUB_HEADER_CONSTANT {
        if packet.id == PUB_CHATFROMGAME {
          var game := ExtractCString(data, 8);
          var from := ExtractCString(data, |game| + 9);
          var text := ExtractCString(data, |game| + |from| + 10);
          SameCount(data);
          GameChat(U32At(data[4..8], 0), game, from, text, m);
        } else if packet.id == PUB_GAMEENDED {
          var game := ExtractCString(data, 4);
          GameEnded(game, m);
        } else if packet.id == PUB_GAMESTARTED {
          var game := ExtractCString(data, 4);
          GameStarted(game, m);
        } else if packet.id == PUB_PLAYERJOIN {
          var login := ExtractCString(data, 4);
          var game := ExtractCString(data, |login| + 5);
          PlayerJoined(login, game, m);
        } else if packet.id == PUB_PLAYERLEAVE {
          var login := ExtractCString(data, 4);
          var game := ExtractCString(data, |login| + 5);
          PlayerLeft(login, game, m);
        }
      }
    }

    /** The queue is worked off from the front. */
    method ProcessBotsPackets(queue: seq<CommandPacket>, ghost m: Model)
      requires Mirrors(m) && AllReadable(queue)
      modifies this, Games()
      ensures Mirrors(ApplyAll(m, EventsOf(queue)))
      ensures forall g | g in gamesList && g.name in m && Ended(g.name) !in EventsOf(queue) ::
        Tells(g.View(), m[g.name], g.name, EventsOf(queue))
      ensures fresh(Games() - old(Games()))
    {
      ghost var events := EventsOf(queue);
      hide Models, Apply, EventOf, Readable, AllReadable, ApplyAll, Tells;
      var rest := queue;
      ghost var now := m;
      while rest != []
        invariant Mirrors(now) && AllReadable(rest) && RunOf(now, rest) == RunOf(m, queue)
        invariant fresh(Games() - old(Games()))
        decreases |rest|
      {
        EventsFront(now, rest);
        HandlePacket(rest[0], now);
        now := Apply(now, EventOf(rest[0]));
        rest := rest[1..];
      }
      NoEvents(now);
      GamesTold(m, events);
    }
  }

  lemma ModelsHas(entries: seq<Entry>, m: Model, k: nat)
    requires Models(entries, m) && k < |entries|
    ensures entries[k].name in m
  {
  }

  lemma NoSuchChat(entries: seq<Entry>, m: Model, e: Event)
    requires Models(entries, m) && e.Chat?
    requires forall i | 0 <= i < |entries| ::
      !(entries[i].name == e.game && entries[i].view.hostCounter == e.hostCounter)
    ensures Models(entries, Apply(m, e))
  {
  }

  lemma TakeOut<T>(s: seq<T>, k: nat)
    requires k < |s|
    ensures multiset(s[..k] + s[k + 1..]) == multiset(s) - multiset{s[k]}
  {
    assert s == s[..k] + [s[k]] + s[k + 1..];
  }

  lemma AppliedOther(m: Model)
    ensures Apply(m, Other) == m
  {
  }

  lemma SameCount(data: seq<byte>)
    requires |data| >= 8
    ensures U32At(data[4..8], 0) == U32At(data, 4)
  {
  }

  ghost predicate AllReadable(packets: seq<CommandPacket>) {
    forall i | 0 <= i < |packets| :: Readable(packets[i])
  }

  function EventsOf(packets: seq<CommandPacket>): seq<Event>
    requires forall i | 0 <= i < |packets| :: Readable(packets[i])
  {
    if packets == [] then [] else [EventOf(packets[0])] + EventsOf(packets[1..])
  }

  ghost function RunOf(m: Model, packets: seq<CommandPacket>): Model
    requires AllReadable(packets)
  {
    ApplyAll(m, EventsOf(packets))
  }

  lemma EventsFront(m: Model, packets: seq<CommandPacket>)
    requires packets != [] && AllReadable(packets)
    ensures AllReadable(packets[1..]) && Readable(packets[0])
    ensures RunOf(m, packets) == RunOf(Apply(m, EventOf(packets[0])), packets[1..])
  {
  }

  lemma NoEvents(m: Model)
    ensures AllReadable([]) && RunOf(m, []) == m
  {
  }

  // ----- from the bot's reports to the server's map -----

  /** Reports a bot can tell: no null bytes, and each packet fits its length field. */
  ghost predicate AllTellable(reports: seq<Report>) {
    forall i | 0 <= i < |reports| ::
      Sendable(reports[i]) && ZeroFree(Meaning(reports[i])) && |PacketOf(reports[i])| <= 65535
  }

  function PacketsOf(reports: seq<Report>): (r: seq<seq<byte>>)
    requires forall i | 0 <= i < |reports| :: Sendable(reports[i])
    ensures |r| == |reports| && forall i | 0 <= i < |r| :: r[i] == PacketOf(reports[i])
  {
    seq(|reports|, i requires 0 <= i < |reports| => PacketOf(reports[i]))
  }

  function Meanings(reports: seq<Report>): seq<Event> {
    if reports == [] then [] else [Meaning(reports[0])] + Meanings(reports[1..])
  }

  /** What a bot reports, sent back to back, is cut into packets and understood by
      the server report by report. */
  lemma StreamUnderstood(reports: seq<Report>)
    requires AllTellable(reports)
    ensures var x := Extract(BOT_HEADERS, Flatten(PacketsOf(reports)));
      && x.rest == [] && x.outcome == Waiting
      && AllReadable(x.packets) && EventsOf(x.packets) == Meanings(reports)
  {
    hide Extract, PacketOf, Sendable, ZeroFree, Meaning, IsFrame, EventsOf, Meanings, AllReadable, ToPackets;
    forall i | 0 <= i < |reports|
      ensures IsFrame(BOT_HEADERS, PacketOf(reports[i]))
    {
      ReportIsFrame(reports[i]);
    }
    AllUnderstood(reports);
    ExtractConcat(BOT_HEADERS, PacketsOf(reports));
  }

  lemma {:induction false} AllUnderstood(reports: seq<Report>)
    requires AllTellable(reports)
    ensures forall i | 0 <= i < |reports| :: |PacketsOf(reports)[i]| >= 4
    ensures AllReadable(ToPackets(PacketsOf(reports))) && EventsOf(ToPackets(PacketsOf(reports))) == Meanings(reports)
  {
    hide PacketOf, Sendable, ZeroFree, Meaning, Readable, EventOf, AllReadable, EventsOf;
    if reports != [] {
      ReportUnderstood(reports[0]);
      AllUnderstood(reports[1..]);
      assert PacketsOf(reports)[1..] == PacketsOf(reports[1..]);
      ReadableFront(ToPacket(PacketOf(reports[0])), ToPackets(PacketsOf(reports[1..])));
    } else {
      NothingToRead();
    }
  }

  lemma NothingToRead()
    ensures AllReadable([]) && EventsOf([]) == []
  {
  }

  lemma ReadableFront(p: CommandPacket, others: seq<CommandPacket>)
    requires Readable(p) && AllReadable(others)
    ensures AllReadable([p] + others) && EventsOf([p] + others) == [EventOf(p)] + EventsOf(others)
  {
  }

  // ----- games do not disturb each other -----

  /** The events that name one game. */
  function About(events: seq<Event>, n: Name): seq<Event> {
    if events == [] then []
    else (if !events[0].Other? && events[0].game == n then [events[0]] else []) + About(events[1..], n)
  }

  predicate SameAt(a: Model, b: Model, n: Name) {
    (n in a <==> n in b) && (n in a ==> a[n] == b[n])
  }

  lemma ApplySameAt(a: Model, b: Model, e: Event, n: Name)
    requires SameAt(a, b, n)
    ensures SameAt(Apply(a, e), Apply(b, e), n)
    ensures e.Other? || e.game != n ==> SameAt(Apply(a, e), b, n)
  {
  }

  /** What is known of a game after any sequence of events depends on the events
      that name it and on nothing else. */
  lemma {:induction false} GamesIndependent(a: Model, b: Model, events: seq<Event>, n: Name)
    requires SameAt(a, b, n)
    ensures SameAt(ApplyAll(a, events), ApplyAll(b, About(events, n)), n)
    decreases |events|
  {
    hide Apply, SameAt;
    if events != [] {
      var e := events[0];
      ApplySameAt(a, b, e, n);
      var rest := About(events[1..], n);
      if !e.Other? && e.game == n {
        GamesIndependent(Apply(a, e), Apply(b, e), events[1..], n);
        assert About(events, n)[1..] == rest;
      } else {
        GamesIndependent(Apply(a, e), b, events[1..], n);
        assert About(events, n) == rest;
      }
    }
  }

  // ----- what the events say about one game -----

  /** An event as a message to a game: name and host counter must both match. */
  function MessageTo(e: Event, n: Name, hostCounter: uint32): seq<Message> {
    match e
    case Chat(h, game, from, text) => if game == n && h == hostCounter then [Message(from, text)] else []
    case _ => []
  }

  /** The messages to a game, oldest first. */
  function MessagesTo(events: seq<Event>, n: Name, hostCounter: uint32): seq<Message> {
    if events == [] then [] else MessageTo(events[0], n, hostCounter) + MessagesTo(events[1..], n, hostCounter)
  }

  /** One more for each joining, one less for each leaving unless nobody of that name
      is there. */
  function PresenceAfter(e: Event, n: Name, login: Name, before: nat): nat {
    if e == Join(login, n) then before + 1 else if e == Leave(login, n) && before > 0 then before - 1 else before
  }

  /** How often a player is in the game. */
  function Presence(events: seq<Event>, n: Name, login: Name, before: nat): nat {
    if events == [] then before else Presence(events[1..], n, login, PresenceAfter(events[0], n, login, before))
  }

  ghost predicate Tells(v: GameView, before: GameView, n: Name, events: seq<Event>) {
    && v.hostCounter == before.hostCounter
    && (v.started <==> before.started || Started(n) in events)
    && v.messages == before.messages + MessagesTo(events, n, before.hostCounter)
    && forall login: Name :: v.players[login] == Presence(events, n, login, before.players[login])
  }

  /** A game that is not ended stays, and its view is its old one with what the events
      say about it: the messages behind the old ones, every player counted, and the
      flag set by a start and by nothing else. */
  lemma {:induction false} HistoryTold(m: Model, events: seq<Event>, n: Name)
    requires n in m && Ended(n) !in events
    ensures n in ApplyAll(m, events) && Tells(ApplyAll(m, events)[n], m[n], n, events)
    decreases |events|
  {
    hide Apply;
    if events == [] {
      NothingTold(m[n], n);
    } else {
      OneTold(m, events[0], n);
      HistoryTold(Apply(m, events[0]), events[1..], n);
      ToldFront(ApplyAll(m, events)[n], Apply(m, events[0])[n], m[n], n, events);
    }
  }

  lemma NothingTold(v: GameView, n: Name)
    ensures Tells(v, v, n, [])
  {
    assert v.messages + [] == v.messages;
  }

  ghost predicate TellsOne(v: GameView, before: GameView, n: Name, e: Event) {
    && v.hostCounter == before.hostCounter
    && (v.started <==> before.started || e == Started(n))
    && v.messages == before.messages + MessageTo(e, n, before.hostCounter)
    && forall login: Name :: v.players[login] == PresenceAfter(e, n, login, before.players[login])
  }

  lemma OneTold(m: Model, e: Event, n: Name)
    requires n in m && e != Ended(n)
    ensures n in Apply(m, e) && TellsOne(Apply(m, e)[n], m[n], n, e)
  {
    if e.Other? || e.Create? || e.game != n {
      OtherTold(m[n], n, e);
    } else {
      ChangedTold(m[n], n, e);
    }
    hide Changed, TellsOne;
  }

  lemma OtherTold(v: GameView, n: Name, e: Event)
    requires e.Other? || e.Create? || e.game != n
    ensures TellsOne(v, v, n, e)
  {
    assert v.messages + [] == v.messages;
  }

  lemma ChangedTold(v: GameView, n: Name, e: Event)
    requires !e.Other? && !e.Create? && !e.Ended? && e.game == n
    ensures TellsOne(Changed(v, e), v, n, e)
  {
    assert v.messages + [] == v.messages;
  }

  lemma ToldFront(v: GameView, middle: GameView, before: GameView, n: Name, events: seq<Event>)
    requires events != [] && TellsOne(middle, before, n, events[0]) && Tells(v, middle, n, events[1..])
    ensures Tells(v, before, n, events)
  {
    hide MessageTo, PresenceAfter;
    var h := before.hostCounter;
    ConcatAssociative(before.messages, MessageTo(events[0], n, h), MessagesTo(events[1..], n, h));
    assert Started(n) in events <==> events[0] == Started(n) || Started(n) in events[1..];
  }

  /** From its announcement on: a game nobody knew is told by what came behind. */
  lemma CreatedTold(m: Model, n: Name, hostCounter: uint32, events: seq<Event>)
    requires n !in m && Ended(n) !in events
    ensures var after := ApplyAll(m, [Create(n, hostCounter)] + events);
      && n in after && after[n].hostCounter == hostCounter && (after[n].started <==> Started(n) in events)
      && after[n].messages == MessagesTo(events, n, hostCounter)
      && forall login: Name :: after[n].players[login] == Presence(events, n, login, 0)
  {
    hide MessagesTo, Presence;
    assert ([Create(n, hostCounter)] + events)[1..] == events;
    HistoryTold(Apply(m, Create(n, hostCounter)), events, n);
    NothingBefore(MessagesTo(events, n, hostCounter));
  }

  /** A game is on the list exactly when, since it was last ended, it was there
      already or has been announced. */
  lemma {:induction false} ListedExact(m: Model, events: seq<Event>, n: Name)
    requires Ended(n) !in events
    ensures n in ApplyAll(m, events) <==> n in m || exists e :: e in events && e.Create? && e.game == n
    ensures n !in ApplyAll(Apply(m, Ended(n)), []) && Apply(m, Ended(n)) == m - {n}
    decreases |events|
  {
    if events != [] {
      ListedExact(Apply(m, events[0]), events[1..], n);
      assert forall e :: e in events <==> e == events[0] || e in events[1..];
    }
  }
}
