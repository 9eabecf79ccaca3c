/** Runs of the outgoing battle.net queue: how fast it may send, and what becomes
    of every packet put into it. Clock readings are exact milliseconds; the code
    sees them modulo 2^32. */
module Throttle {
  import opened Bytes
  import opened BattleNet
  import opened Sequences

  datatype Step =
    | Queue(packet: Packet)
    | Update(check: nat, done: nat)
    | UnqueueType(packetType: byte)
    | UnqueueChat(packet: Packet)
    | Connect(at: nat)

  /** A packet that went out: when it was found due, when the clock was read
      again, and the bytes. */
  datatype Sent = Sent(check: nat, done: nat, packet: Packet)

  /** now: the latest clock reading; mark: the reading lastTicks stems from. */
  datatype System = System(out: Out, now: nat, mark: nat, queued: seq<Packet>, sent: seq<Sent>, removed: seq<Packet>)

  /** Readings never go back. */
  predicate Enabled(s: System, step: Step) {
    match step
    case Update(check, done) => s.now <= check <= done
    case Connect(at) => s.now <= at
    case _ => true
  }

  function Ticks(t: nat): uint32 {
    ToUInt32(t)
  }

  function Drop(s: System, drop: Packet -> bool): System {
    s.(out := s.out.(queue := Without(drop, s.out.queue)), removed := s.removed + Only(drop, s.out.queue))
  }

  function Apply(delays: Delays, s: System, step: Step): System {
    match step
    case Queue(p) => s.(out := s.out.(queue := s.out.queue + [p]), queued := s.queued + [p])
    case Update(check, done) =>
      if Due(delays, s.out, Ticks(check)) then
        s.(out := AfterSend(s.out, Ticks(done)), now := done, mark := done,
           sent := s.sent + [Sent(check, done, s.out.queue[0])])
      else s.(now := done)
    case UnqueueType(packetType) => Drop(s, p => HasType(p, packetType))
    case UnqueueChat(packet) => Drop(s, p => p == packet)
    case Connect(at) =>
      s.(out := Out([], Ticks(at), s.out.lastSize), now := at, mark := at, removed := s.removed + s.out.queue)
  }

  /** A new connection object, lastTicks and lastSize zero. */
  predicate Init(s: System) {
    s.out == Out([], 0, 0) && s.mark <= s.now && Ticks(s.mark) == 0 && s.queued == [] && s.sent == [] && s.removed == []
  }

  ghost predicate Run(delays: Delays, s: System, steps: seq<Step>, end: System)
    decreases |steps|
  {
    if steps == [] then end == s
    else Enabled(s, steps[0]) && Run(delays, Apply(delays, s, steps[0]), steps[1..], end)
  }

  // ----- pacing -----

  /** The wait owed after a packet, by its size. */
  function Owed(delays: Delays, p: Packet): uint32 {
    WaitTicks(delays, ToUInt32(|p|))
  }

  predicate Gap(delays: Delays, a: Sent, b: Sent) {
    a.done + Owed(delays, a.packet) <= b.check
  }

  ghost predicate Paced(delays: Delays, sent: seq<Sent>) {
    && (forall i | 0 <= i < |sent| :: sent[i].check <= sent[i].done)
    && forall i | 0 <= i < |sent| - 1 :: Gap(delays, sent[i], sent[i + 1])
  }

  /** The last send is no later than mark, and its size is the remembered one. */
  ghost predicate PaceInv(delays: Delays, s: System) {
    && s.mark <= s.now && s.out.lastTicks == Ticks(s.mark)
    && (s.sent != [] ==>
      s.sent[|s.sent| - 1].done <= s.mark && s.out.lastSize == ToUInt32(|s.sent[|s.sent| - 1].packet|))
    && Paced(delays, s.sent)
  }

  /** The 32-bit difference of two readings never exceeds the true one. */
  lemma WrapUnderestimates(from: nat, to: nat)
    requires from <= to
    ensures ToUInt32(Ticks(to) - Ticks(from)) == (to - from) % UINT32_COUNT <= to - from
  {
  }

  lemma PaceStep(delays: Delays, s: System, step: Step)
    requires PaceInv(delays, s) && Enabled(s, step)
    ensures PaceInv(delays, Apply(delays, s, step))
  {
    hide WaitTicks, ToUInt32;
    if step.Update? && Due(delays, s.out, Ticks(step.check)) {
      WrapUnderestimates(s.mark, step.check);
      PacedSnoc(delays, s.sent, Sent(step.check, step.done, s.out.queue[0]));
    }
  }

  lemma PacedSnoc(delays: Delays, sent: seq<Sent>, next: Sent)
    requires Paced(delays, sent) && next.check <= next.done
    requires sent != [] ==> Gap(delays, sent[|sent| - 1], next)
    ensures Paced(delays, sent + [next])
  {
  }

  lemma {:induction false} RunPaced(delays: Delays, s: System, steps: seq<Step>, end: System)
    requires PaceInv(delays, s) && Run(delays, s, steps, end)
    ensures PaceInv(delays, end)
    decreases |steps|
  {
    hide PaceInv, Enabled, Apply;
    if steps != [] {
      PaceStep(delays, s, steps[0]);
      RunPaced(delays, Apply(delays, s, steps[0]), steps[1..], end);
    }
  }

  function TotalOwed(delays: Delays, sent: seq<Sent>): nat {
    if sent == [] then 0 else Owed(delays, sent[0].packet) + TotalOwed(delays, sent[1..])
  }

  lemma {:induction false} SpanOwed(delays: Delays, sent: seq<Sent>, i: nat, j: nat)
    requires Paced(delays, sent) && i < j < |sent|
    ensures sent[i].done + TotalOwed(delays, sent[i..j]) <= sent[j].check
    decreases j - i
  {
    hide Owed;
    assert Gap(delays, sent[i], sent[i + 1]);
    if i + 1 < j {
      SpanOwed(delays, sent, i + 1, j);
    }
    assert sent[i..j][1..] == sent[i + 1..j];
  }

  /** How many of the packets have a size from low up to high, as the code keeps it. */
  function HowMany(sent: seq<Sent>, low: nat, high: nat): nat {
    if sent == [] then 0
    else (if low <= ToUInt32(|sent[0].packet|) < high then 1 else 0) + HowMany(sent[1..], low, high)
  }

  /** A second for each packet below ten bytes, the medium delay for each below a
      hundred, the big one for each of the others. */
  lemma {:induction false} TotalBySize(delays: Delays, sent: seq<Sent>)
    ensures TotalOwed(delays, sent)
      == 1000 * HowMany(sent, 0, 10) + delays.medium * HowMany(sent, 10, 100)
         + delays.big * HowMany(sent, 100, 0x1_0000_0000)
  {
    hide ToUInt32;
    if sent != [] {
      TotalBySize(delays, sent[1..]);
      OneMore(delays.medium, HowMany(sent[1..], 10, 100));
      OneMore(delays.big, HowMany(sent[1..], 100, 0x1_0000_0000));
    }
  }

  lemma OneMore(delay: nat, n: nat)
    ensures delay * (1 + n) == delay + delay * n
  {
  }

  /** In every run, reconnects and tick wrap-around included, the time from one
      send to a later one is at least the sum of the waits owed by the packets
      sent from the first up to the second. */
  lemma NeverTooFast(delays: Delays, s: System, steps: seq<Step>, end: System, i: nat, j: nat)
    requires Init(s) && Run(delays, s, steps, end) && i < j < |end.sent|
    ensures end.sent[j].check - end.sent[i].done >= TotalOwed(delays, end.sent[i..j])
    ensures var between := end.sent[i..j];
      end.sent[j].check - end.sent[i].done
        >= 1000 * HowMany(between, 0, 10) + delays.medium * HowMany(between, 10, 100)
           + delays.big * HowMany(between, 100, 0x1_0000_0000)
  {
    hide HowMany, TotalOwed;
    RunPaced(delays, s, steps, end);
    SpanOwed(delays, end.sent, i, j);
    TotalBySize(delays, end.sent[i..j]);
  }

  /** In every reachable state a packet goes out exactly when the time since the
      mark, modulo 2^32, reaches the wait: without a gap of 2^32 milliseconds,
      exactly when the wait has passed. */
  lemma DueExactly(delays: Delays, s: System, check: nat)
    requires PaceInv(delays, s) && s.now <= check
    ensures Due(delays, s.out, Ticks(check))
      <==> s.out.queue != [] && (check - s.mark) % UINT32_COUNT >= WaitTicks(delays, s.out.lastSize)
    ensures check - s.mark < UINT32_COUNT ==>
      (Due(delays, s.out, Ticks(check)) <==> s.out.queue != [] && check - s.mark >= WaitTicks(delays, s.out.lastSize))
  {
    hide WaitTicks, ToUInt32, Paced;
    WrapUnderestimates(s.mark, check);
  }

  // ----- order and conservation -----

  /** a is b with some packets left out. */
  predicate Subsequence(a: seq<Packet>, b: seq<Packet>) {
    if a == [] then true
    else if b == [] then false
    else (a[0] == b[0] && Subsequence(a[1..], b[1..])) || Subsequence(a, b[1..])
  }

  lemma {:induction false} SubsequenceSelf(x: seq<Packet>, a: seq<Packet>, b: seq<Packet>)
    requires Subsequence(a, b)
    ensures Subsequence(x + a, x + b)
  {
    if x == [] {
      assert x + a == a && x + b == b;
    } else {
      SubsequenceSelf(x[1..], a, b);
      assert (x + a)[1..] == x[1..] + a && (x + b)[1..] == x[1..] + b;
    }
  }

  lemma {:induction false} SubsequenceSnoc(a: seq<Packet>, b: seq<Packet>, p: Packet)
    requires Subsequence(a, b)
    ensures Subsequence(a + [p], b + [p])
  {
    if b == [] {
      assert a + [p] == [p] && b + [p] == [p];
    } else {
      assert (b + [p])[1..] == b[1..] + [p];
      if a != [] && a[0] == b[0] && Subsequence(a[1..], b[1..]) {
        assert (a + [p])[1..] == a[1..] + [p];
        SubsequenceSnoc(a[1..], b[1..], p);
      } else {
        SubsequenceSnoc(a, b[1..], p);
      }
    }
  }

  lemma {:induction false} SubsequenceTrans(a: seq<Packet>, b: seq<Packet>, c: seq<Packet>)
    requires Subsequence(a, b) && Subsequence(b, c)
    ensures Subsequence(a, c)
    decreases |c|
  {
    if a != [] && c != [] {
      if Subsequence(b, c[1..]) {
        SubsequenceTrans(a, b, c[1..]);
      } else if Subsequence(a, b[1..]) {
        SubsequenceTrans(a, b[1..], c[1..]);
      } else {
        SubsequenceTrans(a[1..], b[1..], c[1..]);
      }
    }
  }

  lemma {:induction false} WithoutKeepsOrder(drop: Packet -> bool, q: seq<Packet>)
    ensures Subsequence(Without(drop, q), q)
  {
    if q != [] {
      WithoutKeepsOrder(drop, q[1..]);
      if !drop(q[0]) {
        assert Without(drop, q)[1..] == Without(drop, q[1..]);
      } else {
        assert Without(drop, q) == Without(drop, q[1..]);
      }
    }
  }

  lemma {:induction false} WithoutConserves(drop: Packet -> bool, q: seq<Packet>)
    ensures multiset(Without(drop, q)) + multiset(Only(drop, q)) == multiset(q)
  {
    if q != [] {
      WithoutConserves(drop, q[1..]);
      HeadTail(q);
    }
  }

  /** Unqueueing keeps every packet it should keep and takes only those it should. */
  lemma {:induction false} WithoutExact(drop: Packet -> bool, q: seq<Packet>)
    ensures forall i | 0 <= i < |Without(drop, q)| :: !drop(Without(drop, q)[i])
    ensures forall i | 0 <= i < |Only(drop, q)| :: drop(Only(drop, q)[i])
  {
    if q != [] {
      WithoutExact(drop, q[1..]);
    }
  }

  function Packets(sent: seq<Sent>): seq<Packet> {
    if sent == [] then [] else [sent[0].packet] + Packets(sent[1..])
  }

  lemma {:induction false} PacketsSnoc(sent: seq<Sent>, next: Sent)
    ensures Packets(sent + [next]) == Packets(sent) + [next.packet]
  {
    if sent == [] {
      assert sent + [next] == [next];
    } else {
      assert (sent + [next])[1..] == sent[1..] + [next];
      PacketsSnoc(sent[1..], next);
    }
  }

  /** What was sent, then what is still queued, is what was queued, in that
      order, without what was removed; and no packet is lost or doubled. */
  ghost predicate Accounted(s: System) {
    && Subsequence(Packets(s.sent) + s.out.queue, s.queued)
    && multiset(Packets(s.sent)) + multiset(s.out.queue) + multiset(s.removed) == multiset(s.queued)
  }

  lemma AccountedQueue(delays: Delays, s: System, p: Packet)
    requires Accounted(s)
    ensures Accounted(Apply(delays, s, Queue(p)))
  {
    hide Subsequence, Packets;
    SubsequenceSnoc(Packets(s.sent) + s.out.queue, s.queued, p);
    ConcatAssociative(Packets(s.sent), s.out.queue, [p]);
  }

  lemma AccountedUpdate(delays: Delays, s: System, check: nat, done: nat)
    requires Accounted(s)
    ensures Accounted(Apply(delays, s, Update(check, done)))
  {
    hide Subsequence, Packets, WaitTicks, ToUInt32;
    if Due(delays, s.out, Ticks(check)) {
      var q := s.out.queue;
      PacketsSnoc(s.sent, Sent(check, done, q[0]));
      ConcatAssociative(Packets(s.sent), [q[0]], q[1..]);
      HeadTail(q);
    }
  }

  lemma AccountedLess(sent: seq<Packet>, before: seq<Packet>, after: seq<Packet>, gone: seq<Packet>,
                      removed: seq<Packet>, queued: seq<Packet>)
    requires Subsequence(sent + before, queued)
    requires multiset(sent) + multiset(before) + multiset(removed) == multiset(queued)
    requires Subsequence(after, before) && multiset(after) + multiset(gone) == multiset(before)
    ensures Subsequence(sent + after, queued)
    ensures multiset(sent) + multiset(after) + multiset(removed + gone) == multiset(queued)
  {
    hide Subsequence;
    SubsequenceSelf(sent, after, before);
    SubsequenceTrans(sent + after, sent + before, queued);
  }

  lemma AccountedDrop(s: System, drop: Packet -> bool)
    requires Accounted(s)
    ensures Accounted(Drop(s, drop))
  {
    hide Subsequence, Packets, Without, Only;
    WithoutKeepsOrder(drop, s.out.queue);
    WithoutConserves(drop, s.out.queue);
    AccountedLess(Packets(s.sent), s.out.queue, Without(drop, s.out.queue), Only(drop, s.out.queue), s.removed,
                  s.queued);
  }

  lemma AccountedConnect(delays: Delays, s: System, at: nat)
    requires Accounted(s)
    ensures Accounted(Apply(delays, s, Connect(at)))
  {
    hide Packets;
    assert Subsequence([], s.out.queue);
    AccountedLess(Packets(s.sent), s.out.queue, [], s.out.queue, s.removed, s.queued);
  }

  lemma AccountedStep(delays: Delays, s: System, step: Step)
    requires Accounted(s)
    ensures Accounted(Apply(delays, s, step))
  {
    hide Accounted;
    match step
    case Queue(p) => AccountedQueue(delays, s, p);
    case Update(check, done) => AccountedUpdate(delays, s, check, done);
    case UnqueueType(packetType) => AccountedDrop(s, p => HasType(p, packetType));
    case UnqueueChat(packet) => AccountedDrop(s, p => p == packet);
    case Connect(at) => AccountedConnect(delays, s, at);
  }

  lemma {:induction false} RunAccounted(delays: Delays, s: System, steps: seq<Step>, end: System)
    requires Accounted(s) && Run(delays, s, steps, end)
    ensures Accounted(end)
    decreases |steps|
  {
    hide Accounted, Apply, Enabled;
    if steps != [] {
      AccountedStep(delays, s, steps[0]);
      RunAccounted(delays, Apply(delays, s, steps[0]), steps[1..], end);
    }
  }

  /** In every run the packets go out in the order they were queued, apart from
      the removed ones, and each queued packet is sent, waiting or removed once. */
  lemma FifoAndConserved(delays: Delays, s: System, steps: seq<Step>, end: System)
    requires Init(s) && Run(delays, s, steps, end)
    ensures Accounted(end)
  {
    hide Run;
    assert Accounted(s);
    RunAccounted(delays, s, steps, end);
  }

  /** While nothing is unqueued and the connection holds, nothing is removed at
      all: sends and queue make up exactly what was queued. */
  lemma {:induction false} NothingRemoved(delays: Delays, s: System, steps: seq<Step>, end: System)
    requires Run(delays, s, steps, end) && Packets(s.sent) + s.out.queue == s.queued
    requires forall i | 0 <= i < |steps| :: steps[i].Queue? || steps[i].Update?
    ensures Packets(end.sent) + end.out.queue == end.queued
    decreases |steps|
  {
    hide Packets, Due, AfterSend;
    if steps != [] {
      InOrderStep(delays, s, steps[0]);
      NothingRemoved(delays, Apply(delays, s, steps[0]), steps[1..], end);
    }
  }

  lemma InOrderStep(delays: Delays, s: System, step: Step)
    requires Packets(s.sent) + s.out.queue == s.queued && (step.Queue? || step.Update?)
    ensures var t := Apply(delays, s, step);
      Packets(t.sent) + t.out.queue == t.queued
  {
    hide Packets, WaitTicks, ToUInt32;
    if step.Queue? {
      ConcatAssociative(Packets(s.sent), s.out.queue, [step.packet]);
    } else if Due(delays, s.out, Ticks(step.check)) {
      var q := s.out.queue;
      PacketsSnoc(s.sent, Sent(step.check, step.done, q[0]));
      ConcatAssociative(Packets(s.sent), [q[0]], q[1..]);
      HeadTail(q);
    }
  }
}
