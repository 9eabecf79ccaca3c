/** The cached ban list of ghost/bnet.cpp and its index by first letter: entry c
    holds the first position of letter c, or a sentinel when there is none. */
module BanIndex {
  import opened Bytes
  import opened Names
  import opened Sequences

  const NONE: nat := 999999

  datatype Ban = Ban(server: seq<byte>, name: seq<byte>, ip: seq<byte>, date: seq<byte>,
                     gameName: seq<byte>, admin: seq<byte>, reason: seq<byte>, expireDate: seq<byte>)

  /** The list and its index. */
  datatype Bans = Bans(list: seq<Ban>, index: seq<nat>)

  /** name[0] as an unsigned char; the terminator when the name is empty. */
  function FirstLetter(name: seq<byte>): (c: nat)
    ensures c < 256
  {
    if name == [] then 0 else name[0] as int
  }

  function Letter(b: Ban): (c: nat)
    ensures c < 256
  {
    FirstLetter(b.name)
  }

  // ----- what the index should say -----

  ghost predicate IsFirst(list: seq<Ban>, c: nat, f: nat) {
    f < |list| && Letter(list[f]) == c && forall i | 0 <= i < f :: Letter(list[i]) != c
  }

  predicate Occurs(list: seq<Ban>, c: nat) {
    exists i :: 0 <= i < |list| && Letter(list[i]) == c
  }

  ghost predicate Points(list: seq<Ban>, c: nat, e: nat) {
    if e == NONE then !Occurs(list, c) else IsFirst(list, c, e)
  }

  ghost predicate Exact(b: Bans) {
    |b.list| <= NONE && |b.index| == 256 && forall c | 0 <= c < 256 :: Points(b.list, c, b.index[c])
  }

  ghost predicate Sorted(list: seq<Ban>) {
    forall i, j | 0 <= i < j < |list| :: Letter(list[i]) <= Letter(list[j])
  }

  ghost predicate Bounded(b: Bans) {
    forall c | 0 <= c < |b.index| :: b.index[c] == NONE || b.index[c] < |b.list|
  }

  // ----- building the index -----

  function MaxLetter(list: seq<Ban>): (m: nat)
    ensures m < 256 && forall i | 0 <= i < |list| :: Letter(list[i]) <= m
  {
    if list == [] then 0
    else
      var m, c := MaxLetter(list[..|list| - 1]), Letter(list[|list| - 1]);
      if c > m then c else m
  }

  /** The position where letter c exceeds all letters before it. */
  function Record(list: seq<Ban>, c: nat): nat {
    if list == [] then NONE
    else
      var n := |list| - 1;
      if Letter(list[n]) == c > MaxLetter(list[..n]) then n else Record(list[..n], c)
  }

  /** The first letter that is not zero, zero when there is none. */
  function FirstRecord(list: seq<Ban>): nat {
    if list == [] then 0
    else if FirstRecord(list[..|list| - 1]) != 0 then FirstRecord(list[..|list| - 1])
    else Letter(list[|list| - 1])
  }

  ghost predicate Building(list: seq<Ban>, index: seq<nat>) {
    var m := MaxLetter(list);
    && (m == 0 <==> FirstRecord(list) == 0)
    && (m == 0 ==> index == [])
    && (FirstRecord(list) == 1 ==> |index| == m)
    && (FirstRecord(list) >= 2 ==> |index| == m + 1 && forall c | 0 <= c <= m :: index[c] == Record(list, c))
  }

  function Nones(count: nat): (r: seq<nat>)
    ensures |r| == count && forall i | 0 <= i < count :: r[i] == NONE
  {
    seq(count, _ => NONE)
  }

  /** Letters above the largest one have no record. */
  lemma {:induction false} RecordAbove(list: seq<Ban>, c: nat)
    requires c > MaxLetter(list)
    ensures Record(list, c) == NONE
  {
    if list != [] {
      RecordAbove(list[..|list| - 1], c);
    }
  }

  lemma {:induction false} RecordOfZero(list: seq<Ban>)
    ensures Record(list, 0) == NONE
  {
    if list != [] {
      RecordOfZero(list[..|list| - 1]);
    }
  }

  lemma Snoc(list: seq<Ban>, i: nat)
    requires i < |list|
    ensures list[..i + 1][..i] == list[..i] && list[..i + 1][i] == list[i] && |list[..i + 1]| == i + 1
  {
  }

  lemma BuildingSkips(list: seq<Ban>, i: nat, index: seq<nat>)
    requires i < |list| && Building(list[..i], index) && Letter(list[i]) <= MaxLetter(list[..i])
    ensures Building(list[..i + 1], index) && MaxLetter(list[..i + 1]) == MaxLetter(list[..i])
  {
    Snoc(list, i);
  }

  /** A larger letter: sentinels for the letters in between, then its position. */
  lemma BuildingGrows(list: seq<Ban>, i: nat, index: seq<nat>, more: seq<nat>)
    requires i < |list| && Building(list[..i], index) && Letter(list[i]) > MaxLetter(list[..i])
    requires var last, c := MaxLetter(list[..i]), Letter(list[i]);
      more == index + Nones(if c - last <= 1 then 0 else if last == 0 then c else c - 1 - last) + [i]
    ensures Building(list[..i + 1], more) && MaxLetter(list[..i + 1]) == Letter(list[i])
  {
    Snoc(list, i);
    var was, now := list[..i], list[..i + 1];
    var last, m := MaxLetter(was), Letter(list[i]);
    if FirstRecord(now) >= 2 {
      forall c | 0 <= c <= m
        ensures more[c] == Record(now, c)
      {
        RecordOfZero(was);
        if c > last {
          RecordAbove(was, c);
        }
      }
    }
  }

  ghost predicate Ordered(list: seq<Ban>) {
    forall p | 0 <= p < |list| :: Letter(list[p]) > MaxLetter(list[..p]) || Occurs(list[..p], Letter(list[p]))
  }

  // ----- when the built index is exact -----

  /** What UpdateMap leaves: 255 entries when no ban, or first a ban under
      letter 1, gives the first record; otherwise the records of all letters. */
  ghost predicate Built(list: seq<Ban>, index: seq<nat>) {
    if FirstRecord(list) < 2 then |index| == 255
    else |index| == 256 && forall c | 0 <= c < 256 :: index[c] == Record(list, c)
  }

  lemma BuildingEnds(list: seq<Ban>, index: seq<nat>)
    requires Building(list, index)
    ensures Built(list, index + Nones(255 - MaxLetter(list)))
  {
    hide Record, FirstRecord;
    var all := index + Nones(255 - MaxLetter(list));
    if FirstRecord(list) >= 2 {
      forall c | 0 <= c < 256
        ensures all[c] == Record(list, c)
      {
        if c > MaxLetter(list) {
          RecordAbove(list, c);
        }
      }
    }
  }

  lemma BuildingStarts(list: seq<Ban>)
    ensures Building(list[..0], []) && MaxLetter(list[..0]) == 0
  {
  }

  lemma {:induction false} RecordIsRecord(list: seq<Ban>, c: nat)
    requires |list| <= NONE && Record(list, c) != NONE
    ensures var e := Record(list, c);
      e < |list| && Letter(list[e]) == c > MaxLetter(list[..e])
  {
    hide MaxLetter;
    var n := |list| - 1;
    if !(Letter(list[n]) == c > MaxLetter(list[..n])) {
      RecordIsRecord(list[..n], c);
      assert list[..n][..Record(list, c)] == list[..Record(list, c)];
    }
  }

  lemma OrderedFront(list: seq<Ban>)
    requires Ordered(list) && list != []
    ensures Ordered(list[..|list| - 1])
  {
    hide Occurs, MaxLetter;
    var front := list[..|list| - 1];
    assert forall p | 0 <= p < |front| :: front[..p] == list[..p] && front[p] == list[p];
  }

  lemma {:induction false} OrderedPoints(list: seq<Ban>, c: nat)
    requires |list| <= NONE && Ordered(list)
    ensures Points(list, c, Record(list, c))
  {
    if list != [] {
      OrderedFront(list);
      OrderedPoints(list[..|list| - 1], c);
      OrderedPointsStep(list, c);
    }
  }

  lemma OrderedPointsStep(list: seq<Ban>, c: nat)
    requires 0 < |list| <= NONE && Ordered(list)
    requires Points(list[..|list| - 1], c, Record(list[..|list| - 1], c))
    ensures Points(list, c, Record(list, c))
  {
    hide Ordered;
    var n := |list| - 1;
    var front := list[..n];
    LastOrdered(list);
    assert forall i | 0 <= i < n :: front[i] == list[i];
    assert Occurs(list, c) <==> Occurs(front, c) || Letter(list[n]) == c by {
      OccursSnoc(list, c);
    }
  }

  lemma OccursSnoc(list: seq<Ban>, c: nat)
    requires list != []
    ensures Occurs(list, c) <==> Occurs(list[..|list| - 1], c) || Letter(list[|list| - 1]) == c
  {
  }

  lemma LastOrdered(list: seq<Ban>)
    requires list != [] && Ordered(list)
    ensures var n := |list| - 1;
      Letter(list[n]) > MaxLetter(list[..n]) || Occurs(list[..n], Letter(list[n]))
  {
  }

  lemma {:induction false} FirstRecordIsFirst(list: seq<Ban>)
    requires list != [] && Letter(list[0]) > 0
    ensures FirstRecord(list) == Letter(list[0])
  {
    if |list| > 1 {
      FirstRecordIsFirst(list[..|list| - 1]);
    }
  }

  /** Exactly when the index UpdateMap builds is exact: the list is not empty,
      does not start under letter 0 or 1, is short enough for the sentinel, and
      every letter comes up first after all smaller ones. */
  lemma UpdateMapExact(list: seq<Ban>, index: seq<nat>)
    requires Built(list, index)
    ensures Exact(Bans(list, index))
      <==> 0 < |list| <= NONE && Letter(list[0]) >= 2 && Ordered(list)
  {
    hide Record, MaxLetter, FirstRecord, Ordered, Occurs;
    if 0 < |list| <= NONE && Letter(list[0]) >= 2 && Ordered(list) {
      FirstRecordIsFirst(list);
      forall c | 0 <= c < 256
        ensures Points(list, c, index[c])
      {
        OrderedPoints(list, c);
      }
    }
    if Exact(Bans(list, index)) {
      ExactIsOrdered(list, index);
    }
  }

  lemma ExactIsOrdered(list: seq<Ban>, index: seq<nat>)
    requires Built(list, index) && Exact(Bans(list, index))
    ensures 0 < |list| && Letter(list[0]) >= 2 && Ordered(list)
  {
    hide Record, MaxLetter, FirstRecord, Occurs;
    RecordOfZero(list);
    NothingUnderZero(list);
    FirstRecordIsFirst(list);
    forall p | 0 <= p < |list|
      ensures Letter(list[p]) > MaxLetter(list[..p]) || Occurs(list[..p], Letter(list[p]))
    {
      ExactAt(list, index, p);
    }
  }

  lemma NothingUnderZero(list: seq<Ban>)
    requires !Occurs(list, 0) && FirstRecord(list) != 0
    ensures list != [] && Letter(list[0]) > 0
  {
  }

  lemma ExactAt(list: seq<Ban>, index: seq<nat>, p: nat)
    requires |index| == 256 && |list| <= NONE && p < |list|
    requires var c := Letter(list[p]);
      index[c] == Record(list, c) && Points(list, c, index[c])
    ensures Letter(list[p]) > MaxLetter(list[..p]) || Occurs(list[..p], Letter(list[p]))
  {
    hide Record, MaxLetter;
    var c := Letter(list[p]);
    assert Occurs(list, c);
    RecordIsRecord(list, c);
    var e := Record(list, c);
    if e < p {
      assert list[..p][e] == list[e];
    }
  }

  /** A sorted list without letter 0 is ordered in this sense. */
  lemma SortedIsOrdered(list: seq<Ban>)
    requires Sorted(list) && (list != [] ==> Letter(list[0]) > 0)
    ensures Ordered(list)
  {
    hide MaxLetter;
    forall p | 0 <= p < |list|
      ensures Letter(list[p]) > MaxLetter(list[..p]) || Occurs(list[..p], Letter(list[p]))
    {
      MaxAttained(list[..p]);
      assert forall i | 0 <= i < p :: list[..p][i] == list[i];
    }
  }

  lemma {:induction false} MaxAttained(list: seq<Ban>)
    ensures MaxLetter(list) == 0 || Occurs(list, MaxLetter(list))
  {
    if list != [] {
      var n := |list| - 1;
      MaxAttained(list[..n]);
      OccursSnoc(list, MaxLetter(list));
    }
  }

  // ----- removing -----

  /** The letter compares as a signed char widened to 32 bits, so that letters
      from 128 up never equal their own entry's number. */
  predicate SameLetter(b: Ban, c: nat) {
    Letter(b) < 128 && Letter(b) == c
  }

  /** Entry c after the ban at position n was taken out of the list. */
  function EntryAfterRemove(e: nat, c: nat, list: seq<Ban>, n: nat): nat {
    var moved := if e != NONE && e > n then e - 1 else e;
    if moved == n && !(n < |list| && SameLetter(list[n], c)) then NONE else moved
  }

  function IndexAfterRemove(index: seq<nat>, list: seq<Ban>, n: nat): (r: seq<nat>)
    ensures |r| == |index| && forall c | 0 <= c < |r| :: r[c] == EntryAfterRemove(index[c], c, list, n)
  {
    seq(|index|, c requires 0 <= c < |index| => EntryAfterRemove(index[c], c, list, n))
  }

  function EraseAt(b: Bans, n: nat): Bans
    requires n < |b.list|
  {
    var rest := b.list[..n] + b.list[n + 1..];
    Bans(rest, IndexAfterRemove(b.index, rest, n))
  }

  /** The scan of RemoveBan, from position j on. */
  function RemoveFrom(b: Bans, name: seq<byte>, j: nat): Bans
    decreases |b.list| - j
  {
    if j >= |b.list| then b
    else if b.list[j].name == name then RemoveFrom(EraseAt(b, j), name, j)
    else RemoveFrom(b, name, j + 1)
  }

  function Kept(list: seq<Ban>, name: seq<byte>): seq<Ban> {
    if list == [] then [] else (if list[0].name == name then [] else [list[0]]) + Kept(list[1..], name)
  }

  /** One removal is right for letter c unless c is 128 or more and its first ban
      now stands where the removed one stood: then the entry is lost. */
  lemma EntryAfterRemoveRight(list: seq<Ban>, n: nat, c: nat, e: nat)
    requires Sorted(list) && n < |list| <= NONE && c < 256 && Points(list, c, e)
    ensures var rest := list[..n] + list[n + 1..];
      var after := EntryAfterRemove(e, c, rest, n);
      if c >= 128 && IsFirst(rest, c, n) then after == NONE else Points(rest, c, after)
  {
  }

  // ----- the whole scan -----

  /** Letters whose entry is lost by the scan's first p bans: 128 or more, and
      either the first ban of the letter was removed with others remaining behind
      it, or the ban in front of its first one was removed. */
  ghost predicate LostAt(list: seq<Ban>, name: seq<byte>, p: nat, c: nat, f: nat)
    requires f < |list|
  {
    || (f < p && list[f].name == name && f + 1 < |list| && Letter(list[f + 1]) == c)
    || (0 < f <= p && list[f - 1].name == name)
  }

  ghost predicate Lost(list: seq<Ban>, name: seq<byte>, p: nat, c: nat) {
    c >= 128 && exists f :: IsFirst(list, c, f) && LostAt(list, name, p, c, f)
  }

  /** The state of the scan after p bans of list. */
  ghost predicate Scanned(list: seq<Ban>, name: seq<byte>, p: nat, b: Bans)
    requires p <= |list|
  {
    && b.list == Kept(list[..p], name) + list[p..] && |b.index| == 256
    && forall c | 0 <= c < 256 ::
      if Lost(list, name, p, c) then b.index[c] == NONE else Points(b.list, c, b.index[c])
  }

  lemma {:induction false} KeptSnoc(list: seq<Ban>, b: Ban, name: seq<byte>)
    ensures Kept(list + [b], name) == if b.name == name then Kept(list, name) else Kept(list, name) + [b]
  {
    hide Kept;
    KeptFront(list, name);
    KeptFront(list + [b], name);
    if list == [] {
      KeptOne(b, name);
      NothingBefore([b]);
    } else {
      Front(list, [b]);
      KeptSnoc(list[1..], b, name);
      ConcatAssociative(if list[0].name == name then [] else [list[0]], Kept(list[1..], name), [b]);
    }
  }

  lemma KeptFront(list: seq<Ban>, name: seq<byte>)
    ensures Kept(list, name)
      == if list == [] then [] else (if list[0].name == name then [] else [list[0]]) + Kept(list[1..], name)
  {
  }

  /** at lists, in order, the positions of the bans of another name. */
  ghost predicate Picks(list: seq<Ban>, name: seq<byte>, at: seq<nat>) {
    && (forall i | 0 <= i < |at| :: at[i] < |list| && list[at[i]].name != name)
    && (forall i, j | 0 <= i < j < |at| :: at[i] < at[j])
    && forall p: nat | p < |list| && list[p].name != name :: p in at
  }

  lemma PicksSame(list: seq<Ban>, b: Ban, name: seq<byte>, at: seq<nat>)
    requires Picks(list, name, at) && b.name == name
    ensures Picks(list + [b], name, at)
  {
    SnocAt(list, b);
  }

  lemma PicksMore(list: seq<Ban>, b: Ban, name: seq<byte>, at: seq<nat>)
    requires Picks(list, name, at) && b.name != name
    ensures Picks(list + [b], name, at + [|list|])
  {
    SnocAt(list, b);
    var more := at + [|list|];
    assert forall i | 0 <= i < |at| :: more[i] == at[i];
    assert more[|at|] == |list|;
    forall p: nat | p < |list + [b]| && (list + [b])[p].name != name
      ensures p in more
    {
      assert p < |list| ==> p in at;
    }
  }

  lemma SnocAt(list: seq<Ban>, b: Ban)
    ensures var longer := list + [b];
      |longer| == |list| + 1 && longer[|list|] == b && forall p | 0 <= p < |list| :: longer[p] == list[p]
  {
  }

  /** The kept bans are those of another name, each once, in their order. */
  lemma {:induction false} KeptExact(list: seq<Ban>, name: seq<byte>) returns (at: seq<nat>)
    ensures Picks(list, name, at) && |at| == |Kept(list, name)|
    ensures forall i | 0 <= i < |at| :: Kept(list, name)[i] == list[at[i]]
  {
    hide Kept, Picks;
    at := [];
    if list != [] {
      var n := |list| - 1;
      var front := KeptExact(list[..n], name);
      assert list == list[..n] + [list[n]];
      KeptSnoc(list[..n], list[n], name);
      PicksBelow(list[..n], name, front);
      if list[n].name == name {
        PicksSame(list[..n], list[n], name, front);
        at := front;
      } else {
        PicksMore(list[..n], list[n], name, front);
        at := front + [n];
      }
    } else {
      KeptFront(list, name);
      PicksNothing(name);
    }
  }

  lemma PicksBelow(list: seq<Ban>, name: seq<byte>, at: seq<nat>)
    requires Picks(list, name, at)
    ensures forall i | 0 <= i < |at| :: at[i] < |list|
  {
  }

  lemma PicksNothing(name: seq<byte>)
    ensures Picks([], name, [])
  {
  }

  lemma {:induction false} KeptOthers(list: seq<Ban>, name: seq<byte>)
    ensures forall b :: b in Kept(list, name) <==> b in list && b.name != name
  {
    if list != [] {
      KeptOthers(list[1..], name);
    }
  }

  lemma {:induction false} RemovedList(b: Bans, name: seq<byte>, j: nat)
    requires j <= |b.list|
    ensures RemoveFrom(b, name, j).list == b.list[..j] + Kept(b.list[j..], name)
    decreases |b.list| - j
  {
    hide Kept;
    KeptFront(b.list[j..], name);
    if j < |b.list| {
      HeadOf(b.list, j);
      if b.list[j].name == name {
        ErasedList(b, j);
        hide EraseAt;
        RemovedList(EraseAt(b, j), name, j);
        assert [] + Kept(b.list[j + 1..], name) == Kept(b.list[j + 1..], name);
      } else {
        RemovedList(b, name, j + 1);
        ConcatAssociative(b.list[..j], [b.list[j]], Kept(b.list[j + 1..], name));
      }
    }
  }

  lemma HeadOf(list: seq<Ban>, j: nat)
    requires j < |list|
    ensures list[j..] != [] && list[j..][0] == list[j] && list[j..][1..] == list[j + 1..]
    ensures list[..j + 1] == list[..j] + [list[j]]
    ensures (list[..j] + list[j + 1..])[..j] == list[..j] && (list[..j] + list[j + 1..])[j..] == list[j + 1..]
  {
  }

  lemma KeptOne(b: Ban, name: seq<byte>)
    ensures Kept([b], name) == if b.name == name then [] else [b]
  {
  }

  lemma {:induction false} KeptLetters(list: seq<Ban>, name: seq<byte>, c: nat)
    ensures Occurs(Kept(list, name), c) <==> exists i :: 0 <= i < |list| && Letter(list[i]) == c && list[i].name != name
  {
    hide Letter;
    if list != [] {
      KeptLetters(list[1..], name, c);
      KeptLettersStep(list, name, c);
    }
  }

  lemma KeptLettersStep(list: seq<Ban>, name: seq<byte>, c: nat)
    requires list != []
    requires Occurs(Kept(list[1..], name), c)
      <==> exists i :: 0 <= i < |list[1..]| && Letter(list[1..][i]) == c && list[1..][i].name != name
    ensures Occurs(Kept(list, name), c) <==> exists i :: 0 <= i < |list| && Letter(list[i]) == c && list[i].name != name
  {
    hide Letter;
    var tail := list[1..];
    var front := if list[0].name == name then [] else [list[0]];
    OccursConcat(front, Kept(tail, name), c);
    if exists i :: 0 <= i < |list| && Letter(list[i]) == c && list[i].name != name {
      var i :| 0 <= i < |list| && Letter(list[i]) == c && list[i].name != name;
      if i > 0 {
        assert tail[i - 1] == list[i];
      }
    }
    if Occurs(Kept(tail, name), c) {
      var i :| 0 <= i < |tail| && Letter(tail[i]) == c && tail[i].name != name;
      assert list[i + 1] == tail[i];
    }
  }

  lemma OccursConcat(a: seq<Ban>, b: seq<Ban>, c: nat)
    ensures Occurs(a + b, c) <==> Occurs(a, c) || Occurs(b, c)
  {
    hide Letter;
    if Occurs(a, c) {
      var i :| 0 <= i < |a| && Letter(a[i]) == c;
      assert (a + b)[i] == a[i];
    }
    if Occurs(b, c) {
      var i :| 0 <= i < |b| && Letter(b[i]) == c;
      assert (a + b)[|a| + i] == b[i];
    }
    if Occurs(a + b, c) {
      var i :| 0 <= i < |a + b| && Letter((a + b)[i]) == c;
      assert (a + b)[i] == if i < |a| then a[i] else b[i - |a|];
    }
  }

  lemma FindFirst(list: seq<Ban>, c: nat, k: nat) returns (f: nat)
    requires k < |list| && Letter(list[k]) == c
    ensures f <= k && IsFirst(list, c, f)
  {
    hide Letter;
    f := 0;
    while Letter(list[f]) != c
      invariant f <= k && forall i | 0 <= i < f :: Letter(list[i]) != c
      decreases k - f
    {
      f := f + 1;
    }
  }

  lemma LostKept(list: seq<Ban>, name: seq<byte>, p: nat, c: nat)
    requires p < |list| && list[p].name != name
    ensures Lost(list, name, p + 1, c) <==> Lost(list, name, p, c)
  {
  }

  /** A letter is newly lost when its first ban moves to the place of the removed one. */
  lemma LostErased(list: seq<Ban>, name: seq<byte>, p: nat, c: nat)
    requires Sorted(list) && p < |list| && list[p].name == name
    ensures var kept := Kept(list[..p], name);
      Lost(list, name, p + 1, c) <==> Lost(list, name, p, c) || (c >= 128 && IsFirst(kept + list[p + 1..], c, |kept|))
  {
    hide Letter, LostAt, Kept, Sorted;
    var kept := Kept(list[..p], name);
    if c >= 128 && IsFirst(kept + list[p + 1..], c, |kept|) {
      ComesUpIsLost(list, name, p, c);
    }
    if Lost(list, name, p + 1, c) && !Lost(list, name, p, c) {
      var f :| IsFirst(list, c, f) && LostAt(list, name, p + 1, c, f);
      LostComesUp(list, name, p, c, f);
    }
    if Lost(list, name, p, c) {
      LostStays(list, name, p, c);
    }
  }

  lemma LostStays(list: seq<Ban>, name: seq<byte>, p: nat, c: nat)
    requires Lost(list, name, p, c)
    ensures Lost(list, name, p + 1, c)
  {
  }

  lemma ComesUpIsLost(list: seq<Ban>, name: seq<byte>, p: nat, c: nat)
    requires Sorted(list) && p < |list| && list[p].name == name && c >= 128
    requires var kept := Kept(list[..p], name);
      IsFirst(kept + list[p + 1..], c, |kept|)
    ensures Lost(list, name, p + 1, c)
  {
    hide Letter, Kept;
    var kept := Kept(list[..p], name);
    var rest := kept + list[p + 1..];
    assert rest[|kept|] == list[p + 1];
    var f := FindFirst(list, c, p + 1);
    if f <= p {
      NotAmongKept(list[..p], kept, list[p + 1..], name, c);
      assert f < p ==> list[..p][f] == list[f];
      assert Letter(list[f]) <= Letter(list[f + 1]);
      assert f + 1 < p + 1 ==> Letter(list[f + 1]) <= Letter(list[p + 1]);
    }
    assert LostAt(list, name, p + 1, c, f);
  }

  lemma NotAmongKept(front: seq<Ban>, kept: seq<Ban>, back: seq<Ban>, name: seq<byte>, c: nat)
    requires kept == Kept(front, name) && IsFirst(kept + back, c, |kept|)
    ensures forall i | 0 <= i < |front| && Letter(front[i]) == c :: front[i].name == name
  {
    hide Letter, Kept;
    KeptLetters(front, name, c);
    assert forall i | 0 <= i < |kept| :: (kept + back)[i] == kept[i];
  }

  lemma LostComesUp(list: seq<Ban>, name: seq<byte>, p: nat, c: nat, f: nat)
    requires p < |list| && IsFirst(list, c, f) && LostAt(list, name, p + 1, c, f) && !LostAt(list, name, p, c, f)
    ensures var kept := Kept(list[..p], name);
      IsFirst(kept + list[p + 1..], c, |kept|)
  {
    hide Letter, Kept;
    var kept := Kept(list[..p], name);
    KeptLetters(list[..p], name, c);
    assert forall i | 0 <= i < p :: list[..p][i] == list[i];
    assert (kept + list[p + 1..])[|kept|] == list[p + 1];
    assert forall i | 0 <= i < |kept| :: (kept + list[p + 1..])[i] == kept[i];
  }

  lemma ScanKeeps(list: seq<Ban>, name: seq<byte>, p: nat, b: Bans)
    requires p < |list| && list[p].name != name && Scanned(list, name, p, b)
    ensures Scanned(list, name, p + 1, b)
  {
    hide Letter, Lost, Points, Kept;
    assert list[..p + 1] == list[..p] + [list[p]];
    KeptSnoc(list[..p], list[p], name);
    assert list[p..] == [list[p]] + list[p + 1..];
    ConcatAssociative(Kept(list[..p], name), [list[p]], list[p + 1..]);
    forall c | 0 <= c < 256
      ensures Lost(list, name, p + 1, c) <==> Lost(list, name, p, c)
    {
      LostKept(list, name, p, c);
    }
  }

  lemma ScanErases(list: seq<Ban>, name: seq<byte>, p: nat, b: Bans)
    requires Sorted(list) && p < |list| <= NONE && list[p].name == name
    requires Scanned(list, name, p, b) && Sorted(b.list) && |b.list| <= NONE
    ensures var n := |Kept(list[..p], name)|;
      n < |b.list| && b.list[n] == list[p] && Scanned(list, name, p + 1, EraseAt(b, n))
  {
    hide Letter, Lost, Points, Kept, Sorted, IsFirst, EntryAfterRemove;
    var kept := Kept(list[..p], name);
    var n := |kept|;
    assert list[..p + 1] == list[..p] + [list[p]];
    KeptSnoc(list[..p], list[p], name);
    assert b.list[..n] == kept && b.list[n + 1..] == list[p + 1..];
    forall c | 0 <= c < 256
      ensures var after := EntryAfterRemove(b.index[c], c, kept + list[p + 1..], n);
        if Lost(list, name, p + 1, c) then after == NONE else Points(kept + list[p + 1..], c, after)
    {
      LostErased(list, name, p, c);
      if Lost(list, name, p, c) {
        LostEntryStays(c, kept + list[p + 1..], n);
      } else {
        EntryAfterRemoveRight(b.list, n, c, b.index[c]);
      }
    }
  }

  lemma LostEntryStays(c: nat, list: seq<Ban>, n: nat)
    ensures EntryAfterRemove(NONE, c, list, n) == NONE
  {
  }

  lemma EraseSorted(list: seq<Ban>, n: nat)
    requires n < |list| && Sorted(list)
    ensures Sorted(list[..n] + list[n + 1..])
  {
  }

  /** The scan ends with the kept bans and the letters lost on the way. */
  lemma {:induction false} ScanEnds(list: seq<Ban>, name: seq<byte>, p: nat, b: Bans)
    requires Sorted(list) && p <= |list| <= NONE
    requires Scanned(list, name, p, b) && Sorted(b.list) && |b.list| <= NONE
    ensures var r := RemoveFrom(b, name, |Kept(list[..p], name)|);
      Scanned(list, name, |list|, r) && Sorted(r.list) && |r.list| <= NONE
    decreases |list| - p
  {
    hide Scanned, Sorted, Kept, EraseAt;
    ScanPosition(list, name, p, b);
    if p < |list| {
      var n := |Kept(list[..p], name)|;
      KeptNext(list, name, p);
      if list[p].name == name {
        ScanErases(list, name, p, b);
        EraseSorted(b.list, n);
        ErasedList(b, n);
        ScanEnds(list, name, p + 1, EraseAt(b, n));
      } else {
        ScanKeeps(list, name, p, b);
        ScanEnds(list, name, p + 1, b);
      }
    }
  }

  lemma ErasedList(b: Bans, n: nat)
    requires n < |b.list|
    ensures EraseAt(b, n).list == b.list[..n] + b.list[n + 1..]
  {
  }

  lemma KeptNext(list: seq<Ban>, name: seq<byte>, p: nat)
    requires p < |list|
    ensures |Kept(list[..p + 1], name)| == |Kept(list[..p], name)| + if list[p].name == name then 0 else 1
  {
    assert list[..p + 1] == list[..p] + [list[p]];
    KeptSnoc(list[..p], list[p], name);
  }

  lemma ScanPosition(list: seq<Ban>, name: seq<byte>, p: nat, b: Bans)
    requires p <= |list| && Scanned(list, name, p, b)
    ensures var n := |Kept(list[..p], name)|;
      |b.list| == n + |list| - p && (p < |list| ==> b.list[n] == list[p])
  {
  }

  /** Exactly when removing a name leaves the index exact: for every letter from
      128 up that still has bans afterwards, neither its first ban nor the one in
      front of it is removed. */
  ghost predicate RemovalHarmless(list: seq<Ban>, name: seq<byte>) {
    forall f | 0 <= f < |list| && Letter(list[f]) >= 128 && IsFirst(list, Letter(list[f]), f)
        && Occurs(Kept(list, name), Letter(list[f])) ::
      list[f].name != name && (f > 0 ==> list[f - 1].name != name)
  }

  /** A surviving letter is lost exactly when its first ban, or the one in front, goes. */
  lemma LostSurvivor(list: seq<Ban>, name: seq<byte>, f: nat)
    requires Sorted(list) && f < |list| && Letter(list[f]) >= 128 && IsFirst(list, Letter(list[f]), f)
    requires Occurs(Kept(list, name), Letter(list[f]))
    ensures Lost(list, name, |list|, Letter(list[f]))
      <==> list[f].name == name || (f > 0 && list[f - 1].name == name)
  {
    hide Kept, Letter;
    var c := Letter(list[f]);
    KeptLetters(list, name, c);
    if list[f].name == name {
      var k :| 0 <= k < |list| && Letter(list[k]) == c && list[k].name != name;
      assert k > f;
      assert Letter(list[f]) <= Letter(list[f + 1]);
      assert f + 1 < k ==> Letter(list[f + 1]) <= Letter(list[k]);
    }
    if list[f].name == name || (f > 0 && list[f - 1].name == name) {
      assert LostAt(list, name, |list|, c, f);
    }
    if Lost(list, name, |list|, c) {
      var g :| IsFirst(list, c, g) && LostAt(list, name, |list|, c, g);
      assert g == f;
    }
  }

  lemma ScanStart(b: Bans, name: seq<byte>)
    requires Exact(b)
    ensures Scanned(b.list, name, 0, b) && |Kept(b.list[..0], name)| == 0
  {
  }

  lemma ScannedAll(list: seq<Ban>, name: seq<byte>, r: Bans)
    requires Scanned(list, name, |list|, r)
    ensures r.list == Kept(list, name) && |r.index| == 256
    ensures forall c | 0 <= c < 256 ::
      if Lost(list, name, |list|, c) then r.index[c] == NONE else Points(r.list, c, r.index[c])
  {
    hide Lost, Points, Kept;
    assert list[..|list|] == list && list[|list|..] == [];
    assert r.list == Kept(list[..|list|], name);
  }

  /** RemoveBan takes out exactly the bans of that name, keeps the order of the
      others and a sorted list sorted, and keeps the index exact if and only if
      the removal is harmless. */
  lemma RemoveBanExact(b: Bans, name: seq<byte>)
    requires Exact(b) && Sorted(b.list)
    ensures var r := RemoveFrom(b, name, 0);
      r.list == Kept(b.list, name) && Sorted(r.list) && (Exact(r) <==> RemovalHarmless(b.list, name))
  {
    hide Scanned, Kept, Sorted, Lost, Points, RemovalHarmless, RemoveFrom;
    ScanStart(b, name);
    ScanEnds(b.list, name, 0, b);
    var r := RemoveFrom(b, name, 0);
    ScannedAll(b.list, name, r);
    if RemovalHarmless(b.list, name) {
      forall c | 0 <= c < 256
        ensures Points(r.list, c, r.index[c])
      {
        HarmlessPoints(b.list, name, c, r);
      }
    }
    if Exact(r) {
      ExactHarmless(b.list, name, r);
    }
  }

  lemma HarmlessPoints(list: seq<Ban>, name: seq<byte>, c: nat, r: Bans)
    requires Sorted(list) && RemovalHarmless(list, name) && r.list == Kept(list, name) && c < |r.index|
    requires if Lost(list, name, |list|, c) then r.index[c] == NONE else Points(r.list, c, r.index[c])
    ensures Points(r.list, c, r.index[c])
  {
  }

  lemma ExactHarmless(list: seq<Ban>, name: seq<byte>, r: Bans)
    requires Sorted(list) && Exact(r) && r.list == Kept(list, name)
    requires forall c | 0 <= c < 256 && Lost(list, name, |list|, c) :: r.index[c] == NONE
    ensures RemovalHarmless(list, name)
  {
    hide Kept, Letter, Sorted, Lost, IsFirst;
    forall f | 0 <= f < |list| && Letter(list[f]) >= 128 && IsFirst(list, Letter(list[f]), f)
        && Occurs(Kept(list, name), Letter(list[f]))
      ensures list[f].name != name && (f > 0 ==> list[f - 1].name != name)
    {
      LostSurvivor(list, name, f);
      assert Points(r.list, Letter(list[f]), r.index[Letter(list[f])]);
    }
  }

  function Named(name: seq<byte>): Ban {
    Ban([], name, [], [], [], [], [], [])
  }

  /** "a", "ab" and "b": letter 97 begins at position 0, letter 98 at position 2. */
  lemma ThreeBans(index: seq<nat>)
    requires Built([Named([97]), Named([97, 98]), Named([98])], index)
    ensures |index| == 256 && index[97] == 0 && index[98] == 2
    ensures forall c | 0 <= c < 256 && c != 97 && c != 98 :: index[c] == 999999
  {
    hide Built, Ordered;
    var list := [Named([97]), Named([97, 98]), Named([98])];
    SortedIsOrdered(list);
    UpdateMapExact(list, index);
    assert Letter(list[0]) == 97 && Letter(list[1]) == 97 && Letter(list[2]) == 98;
    hide Letter;
    forall c | 0 <= c < 256
      ensures index[c] == if c == 97 then 0 else if c == 98 then 2 else 999999
    {
      assert Points(list, c, index[c]);
    }
  }

  /** Two bans under letter 200: removing the first makes the index deny the second. */
  lemma HighLetterLost()
    ensures var b := Bans([Named([200, 1]), Named([200, 2])], seq(256, c => if c == 200 then 0 else NONE));
      Exact(b) && !Exact(RemoveFrom(b, [200, 1], 0)) && Occurs(RemoveFrom(b, [200, 1], 0).list, 200)
  {
    var list := [Named([200, 1]), Named([200, 2])];
    var b := Bans(list, seq(256, c => if c == 200 then 0 else NONE));
    assert IsFirst(list, 200, 0);
    assert forall c | 0 <= c < 256 :: Points(list, c, b.index[c]);
    hide RemoveFrom;
    RemoveBanExact(b, [200, 1]);
    assert Kept(list, [200, 1])[0] == list[1];
  }

  /** In particular for lists of names that start below 128. */
  lemma PlainLettersExact(b: Bans, name: seq<byte>)
    requires Exact(b) && Sorted(b.list) && forall i | 0 <= i < |b.list| :: Letter(b.list[i]) < 128
    ensures Exact(RemoveFrom(b, name, 0))
  {
    hide RemoveFrom, Exact, Sorted, Kept;
    RemoveBanExact(b, name);
  }

  // ----- adding -----

  /** The position a letter without an entry takes over: that of the nearest
      smaller letter with one, or the front. */
  function Borrow(index: seq<nat>, letter: nat): nat
    requires letter < |index|
  {
    if index[letter] != NONE then index[letter] else if letter == 0 then 0 else Borrow(index, letter - 1)
  }

  function IndexAfterAdd(index: seq<nat>, n: nat): (r: seq<nat>)
    ensures |r| == |index|
    ensures forall c | 0 <= c < |r| :: r[c] == if index[c] != NONE && index[c] > n then index[c] + 1 else index[c]
  {
    seq(|index|, c requires 0 <= c < |index| => if index[c] != NONE && index[c] > n then index[c] + 1 else index[c])
  }

  function InsertAt(b: Bans, n: nat, ban: Ban): Bans
    requires n <= |b.list| && Letter(ban) < |b.index|
  {
    Bans(b.list[..n] + [ban] + b.list[n..], IndexAfterAdd(b.index[Letter(ban) := n], n))
  }

  lemma {:induction false} BorrowBounded(b: Bans, letter: nat)
    requires Bounded(b) && letter < |b.index|
    ensures Borrow(b.index, letter) <= |b.list|
    ensures Borrow(b.index, letter) == 0 || Borrow(b.index, letter) < |b.list|
    ensures b.index[letter] == NONE ==>
      (Borrow(b.index, letter) == 0 || exists c :: 0 <= c < letter && b.index[c] == Borrow(b.index, letter))
    decreases letter
  {
    if b.index[letter] == NONE && letter > 0 {
      BorrowBounded(b, letter - 1);
    }
  }

  /** A letter without an entry borrows from the nearest smaller letter with one. */
  lemma {:induction false} BorrowNearest(index: seq<nat>, letter: nat, c: nat)
    requires c <= letter < |index| && index[c] != 999999 && forall d | c < d <= letter :: index[d] == 999999
    ensures Borrow(index, letter) == index[c]
    decreases letter
  {
    if c < letter {
      BorrowNearest(index, letter - 1, c);
    }
  }

  /** When there is none, the new ban goes to the front. */
  lemma {:induction false} BorrowFront(index: seq<nat>, letter: nat)
    requires letter < |index| && forall d | 0 <= d <= letter :: index[d] == 999999
    ensures Borrow(index, letter) == 0
    decreases letter
  {
    if letter > 0 {
      BorrowFront(index, letter - 1);
    }
  }

  lemma ExactBounded(b: Bans)
    requires Exact(b)
    ensures Bounded(b)
  {
  }

  lemma InsertedPoints(b: Bans, ban: Ban, c: nat)
    requires Exact(b) && Sorted(b.list) && |b.list| < NONE && c < 256 && b.index[Letter(ban)] != NONE
    ensures b.index[Letter(ban)] < |b.list|
    ensures var r := InsertAt(b, b.index[Letter(ban)], ban);
      Points(r.list, c, r.index[c])
  {
  }

  lemma InsertedAt(list: seq<Ban>, n: nat, ban: Ban)
    requires n <= |list|
    ensures var more := list[..n] + [ban] + list[n..];
      && |more| == |list| + 1 && more[n] == ban
      && (forall i | 0 <= i < n :: more[i] == list[i])
      && forall i | n < i < |more| :: more[i] == list[i - 1]
  {
  }

  /** Without an entry for its letter, a new ban takes the place of another
      letter's first ban and that letter's entry is not moved along. */
  lemma BorrowedSpoils(b: Bans, ban: Ban)
    requires Exact(b) && |b.list| < NONE && b.index[Letter(ban)] == NONE && b.list != []
    ensures Borrow(b.index, Letter(ban)) <= |b.list|
    ensures !Exact(InsertAt(b, Borrow(b.index, Letter(ban)), ban))
  {
    hide Letter;
    ExactBounded(b);
    BorrowBounded(b, Letter(ban));
    var n := Borrow(b.index, Letter(ban));
    var c := Letter(b.list[n]);
    assert Points(b.list, Letter(ban), NONE);
    SpoiledEntry(b, n, c);
    InsertedAt(b.list, n, ban);
    var r := InsertAt(b, n, ban);
    assert r.index[c] == n;
    assert !Points(r.list, c, r.index[c]);
  }

  lemma SpoiledEntry(b: Bans, n: nat, c: nat)
    requires Exact(b) && n < |b.list| && Letter(b.list[n]) == c
    requires n == 0 || exists d :: 0 <= d < 256 && b.index[d] == n
    ensures b.index[c] == n
  {
  }

  /** The first ban of all gets an exact entry. */
  lemma FirstBanExact(b: Bans, ban: Ban)
    requires Exact(b) && b.list == []
    ensures Exact(InsertAt(b, 0, ban))
  {
  }

  function AddBan(b: Bans, ban: Ban): Bans
    requires Letter(ban) < |b.index| && Borrow(b.index, Letter(ban)) <= |b.list|
  {
    InsertAt(b, Borrow(b.index, Letter(ban)), ban)
  }

  /** AddBan keeps the index exact exactly when the letter already has an entry
      or the list is empty; then a sorted list stays sorted too. */
  lemma AddBanExact(b: Bans, ban: Ban)
    requires Exact(b) && Sorted(b.list) && |b.list| < NONE
    ensures Borrow(b.index, Letter(ban)) <= |b.list|
    ensures Exact(AddBan(b, ban)) <==> b.index[Letter(ban)] != NONE || b.list == []
    ensures b.index[Letter(ban)] != NONE ==> Sorted(AddBan(b, ban).list)
  {
    hide Letter, Sorted, Points;
    ExactBounded(b);
    BorrowBounded(b, Letter(ban));
    if b.index[Letter(ban)] != NONE {
      var r := AddBan(b, ban);
      forall c | 0 <= c < 256
        ensures Points(r.list, c, r.index[c])
      {
        InsertedPoints(b, ban, c);
      }
      InsertedSorted(b, ban);
    } else if b.list == [] {
      FirstBanExact(b, ban);
    } else {
      BorrowedSpoils(b, ban);
    }
  }

  lemma InsertedSorted(b: Bans, ban: Ban)
    requires Exact(b) && Sorted(b.list) && b.index[Letter(ban)] != NONE
    ensures b.index[Letter(ban)] < |b.list| && Sorted(InsertAt(b, b.index[Letter(ban)], ban).list)
  {
  }

  // ----- runs -----

  datatype Op = Add(ban: Ban) | Remove(name: seq<byte>)

  /** An addition looks its letter up, so the index must have that entry. */
  ghost predicate Enabled(b: Bans, op: Op) {
    op.Add? ==> Letter(op.ban) < |b.index|
  }

  ghost function Apply(b: Bans, op: Op): Bans
    requires Bounded(b) && Enabled(b, op)
  {
    match op
    case Add(ban) =>
      BorrowBounded(b, Letter(ban));
      AddBan(b, ban)
    case Remove(name) => RemoveFrom(b, name, 0)
  }

  lemma EraseBounded(b: Bans, n: nat)
    requires Bounded(b) && n < |b.list|
    ensures Bounded(EraseAt(b, n))
  {
  }

  lemma {:induction false} RemoveBounded(b: Bans, name: seq<byte>, j: nat)
    requires Bounded(b)
    ensures Bounded(RemoveFrom(b, name, j))
    decreases |b.list| - j
  {
    hide Bounded, EraseAt;
    if j < |b.list| {
      if b.list[j].name == name {
        EraseBounded(b, j);
        ErasedList(b, j);
        RemoveBounded(EraseAt(b, j), name, j);
      } else {
        RemoveBounded(b, name, j + 1);
      }
    }
  }

  lemma {:induction false} RemoveKeepsSize(b: Bans, name: seq<byte>, j: nat)
    ensures |RemoveFrom(b, name, j).index| == |b.index|
    decreases |b.list| - j
  {
    if j < |b.list| {
      if b.list[j].name == name {
        RemoveKeepsSize(EraseAt(b, j), name, j);
      } else {
        RemoveKeepsSize(b, name, j + 1);
      }
    }
  }

  lemma ApplyBounded(b: Bans, op: Op)
    requires Bounded(b) && Enabled(b, op)
    ensures Bounded(Apply(b, op)) && |Apply(b, op).index| == |b.index|
  {
    match op
    case Add(ban) =>
      BorrowBounded(b, Letter(ban));
    case Remove(name) =>
      RemoveBounded(b, name, 0);
      RemoveKeepsSize(b, name, 0);
  }

  ghost predicate Run(b: Bans, ops: seq<Op>, end: Bans)
    decreases |ops|
  {
    if ops == [] then end == b
    else Bounded(b) && Enabled(b, ops[0]) && Run(Apply(b, ops[0]), ops[1..], end)
  }

  /** Under any sequence of additions and removals, borrowed entries included,
      every entry is the sentinel or a position in the list, and the number of
      entries stays what UpdateMap made it, 255 after an empty list. */
  lemma {:induction false} RunBounded(b: Bans, ops: seq<Op>, end: Bans)
    requires Bounded(b) && Run(b, ops, end)
    ensures Bounded(end) && |end.index| == |b.index|
    decreases |ops|
  {
    hide Bounded, Apply, Enabled;
    if ops != [] {
      ApplyBounded(b, ops[0]);
      RunBounded(Apply(b, ops[0]), ops[1..], end);
    }
  }

  /** With UpdateMap's 256 entries, or with its 255 and no letter 255, every
      sequence of operations can be carried out. */
  lemma {:induction false} RunExists(b: Bans, ops: seq<Op>) returns (end: Bans)
    requires Bounded(b) && |b.index| >= 255
    requires |b.index| >= 256 || forall i | 0 <= i < |ops| && ops[i].Add? :: Letter(ops[i].ban) < 255
    ensures Run(b, ops, end)
    decreases |ops|
  {
    end := b;
    if ops != [] {
      hide Bounded, Apply;
      ApplyBounded(b, ops[0]);
      end := RunExists(Apply(b, ops[0]), ops[1..]);
    }
  }

  // ----- spellings -----

  predicate AllLower(list: seq<Ban>) {
    forall i | 0 <= i < |list| :: IsLower(list[i].name)
  }

  /** Some ban is for this name, in whatever spelling. */
  predicate Banned(list: seq<Ban>, name: seq<byte>) {
    exists i :: 0 <= i < |list| && SameUpToCase(list[i].name, name)
  }

  lemma NoneLeft(list: seq<Ban>, name: seq<byte>)
    requires AllLower(list)
    ensures var rest := Kept(list, ToLower(name));
      && AllLower(rest) && !Banned(rest, name)
      && forall b :: b in rest <==> b in list && !SameUpToCase(b.name, name)
  {
    hide SameUpToCase, IsLower, ToLower;
    KeptOthers(list, ToLower(name));
    forall b | b in list
      ensures IsLower(b.name) && (b.name == ToLower(name) <==> SameUpToCase(b.name, name))
    {
      StoredUnder(b.name, name);
    }
  }

  /** A ban just added is there for every spelling of its name. */
  lemma AddedIsBanned(list: seq<Ban>, i: nat, ban: Ban, name: seq<byte>, spelling: seq<byte>)
    requires i < |list| && list[i] == ban && ban.name == ToLower(name) && SameUpToCase(spelling, name)
    ensures Banned(list, spelling)
  {
    hide SameUpToCase, IsLower, ToLower;
    LowerIsLower(name);
    LowerExact(spelling, name);
    StoredUnder(ban.name, spelling);
  }

  datatype Found = Nobody | Somebody(ban: Ban)

  // ----- the connection's list -----

  class BanList {
    const server: seq<byte>
    var bans: seq<Ban>
    var banlistIndexes: seq<nat>

    constructor (server: seq<byte>, bans: seq<Ban>)
      ensures this.server == server && this.bans == bans && Built(bans, banlistIndexes)
    {
      this.server, this.bans, banlistIndexes := server, bans, [];
      new;
      UpdateMap();
    }

    function State(): Bans
      reads this
    {
      Bans(bans, banlistIndexes)
    }

    /** Rebuilds the index from the list. */
    method UpdateMap()
      modifies this`banlistIndexes
      ensures Built(bans, banlistIndexes) && Bounded(State())
    {
      hide Building, MaxLetter, FirstRecord, Record, Built;
      banlistIndexes := [];
      var lastLetter, index := 0, 0;
      BuildingStarts(bans);
      for i := 0 to |bans|
        invariant index == i && lastLetter == MaxLetter(bans[..i]) && Building(bans[..i], banlistIndexes)
        invariant forall k | 0 <= k < |banlistIndexes| :: banlistIndexes[k] == NONE || banlistIndexes[k] < i
      {
        var letter := Letter(bans[i]);
        if letter > lastLetter {
          ghost var before := banlistIndexes;
          var l := if lastLetter == 0 then letter else letter - 1;
          if letter - lastLetter > 1 {
            PushNones(l - lastLetter);
          }
          banlistIndexes := banlistIndexes + [index];
          NoNones(before);
          BuildingGrows(bans, i, before, banlistIndexes);
          lastLetter := letter;
        } else {
          BuildingSkips(bans, i, banlistIndexes);
        }
        index := index + 1;
      }
      assert bans[..|bans|] == bans;
      BuildingEnds(bans, banlistIndexes);
      PushNones(255 - lastLetter);
    }

    /** The loop pushing one sentinel for every letter in between. */
    method PushNones(count: nat)
      modifies this`banlistIndexes
      ensures banlistIndexes == old(banlistIndexes) + Nones(count)
    {
      for i := 0 to count
        invariant banlistIndexes == old(banlistIndexes) + Nones(i)
      {
        banlistIndexes := banlistIndexes + [NONE];
      }
    }

    method UpdateMapRemoveBan(n: nat)
      modifies this`banlistIndexes
      ensures banlistIndexes == IndexAfterRemove(old(banlistIndexes), bans, n)
    {
      for i := 0 to |banlistIndexes|
        invariant |banlistIndexes| == |old(banlistIndexes)|
        invariant forall c | 0 <= c < i :: banlistIndexes[c] == EntryAfterRemove(old(banlistIndexes)[c], c, bans, n)
        invariant forall c | i <= c < |banlistIndexes| :: banlistIndexes[c] == old(banlistIndexes)[c]
      {
        if banlistIndexes[i] != NONE && banlistIndexes[i] > n {
          banlistIndexes := banlistIndexes[i := banlistIndexes[i] - 1];
        }
        if banlistIndexes[i] == n {
          if |bans| > n {
            if !SameLetter(bans[n], i) {
              banlistIndexes := banlistIndexes[i := NONE];
            }
          } else {
            banlistIndexes := banlistIndexes[i := NONE];
          }
        }
      }
    }

    method UpdateMapAddBan(n: nat)
      modifies this`banlistIndexes
      ensures banlistIndexes == IndexAfterAdd(old(banlistIndexes), n)
    {
      for i := 0 to |banlistIndexes|
        invariant |banlistIndexes| == |old(banlistIndexes)|
        invariant forall c | 0 <= c < i :: banlistIndexes[c] == IndexAfterAdd(old(banlistIndexes), n)[c]
        invariant forall c | i <= c < |banlistIndexes| :: banlistIndexes[c] == old(banlistIndexes)[c]
      {
        if banlistIndexes[i] != NONE && banlistIndexes[i] > n {
          banlistIndexes := banlistIndexes[i := banlistIndexes[i] + 1];
        }
      }
    }

    /** The name is stored in lower case. The index must have an entry for its
        letter, and the entry a place in the list. */
    method Add(name: seq<byte>, ip: seq<byte>, date: seq<byte>, gameName: seq<byte>, admin: seq<byte>,
               reason: seq<byte>, expireDate: seq<byte>)
      requires FirstLetter(ToLower(name)) < |banlistIndexes| && Bounded(State())
      modifies this
      ensures var ban := Ban(server, ToLower(name), ip, date, gameName, admin, reason, expireDate);
        Borrow(old(banlistIndexes), Letter(ban)) <= |old(bans)| && State() == AddBan(old(State()), ban)
      ensures forall spelling | SameUpToCase(spelling, name) :: Banned(bans, spelling)
      ensures AllLower(old(bans)) ==> AllLower(bans)
    {
      var lower := ToLower(name);
      var letter := FirstLetter(lower);
      BorrowBounded(State(), letter);
      var index := banlistIndexes[letter];
      while index == NONE
        invariant letter < |banlistIndexes|
        invariant (if index == NONE then Borrow(banlistIndexes, letter) else index)
          == Borrow(banlistIndexes, FirstLetter(lower))
        invariant index == NONE ==> banlistIndexes[letter] == NONE
        decreases index == NONE, letter
      {
        if letter > 0 {
          letter := letter - 1;
          index := banlistIndexes[letter];
        } else {
          index := 0;
        }
      }
      letter := FirstLetter(lower);
      banlistIndexes := banlistIndexes[letter := index];
      bans := bans[..index] + [Ban(server, lower, ip, date, gameName, admin, reason, expireDate)] + bans[index..];
      UpdateMapAddBan(index);
      AddedHere(index, name);
    }

    lemma AddedHere(i: nat, name: seq<byte>)
      requires i < |bans| && bans[i].name == ToLower(name)
      ensures forall spelling | SameUpToCase(spelling, name) :: Banned(bans, spelling)
      ensures AllLower(bans[..i] + bans[i + 1..]) ==> AllLower(bans)
    {
      hide SameUpToCase, ToLower, IsLower;
      LowerIsLower(name);
      InsertedAt(bans[..i] + bans[i + 1..], i, bans[i]);
      forall spelling | SameUpToCase(spelling, name)
        ensures Banned(bans, spelling)
      {
        AddedIsBanned(bans, i, bans[i], name, spelling);
      }
    }

    /** The first ban for a name. */
    method IsBannedName(name: seq<byte>) returns (found: Found)
      ensures found.Nobody? ==> forall i | 0 <= i < |bans| :: bans[i].name != ToLower(name)
      ensures found.Somebody? ==>
        exists i :: 0 <= i < |bans| && bans[i] == found.ban && found.ban.name == ToLower(name)
          && forall j | 0 <= j < i :: bans[j].name != ToLower(name)
      ensures AllLower(bans) ==>
        && (found.Somebody? <==> Banned(bans, name))
        && (found.Somebody? ==> SameUpToCase(found.ban.name, name))
    {
      hide ToLower, SameUpToCase, IsLower;
      Spellings(name);
      var lower := ToLower(name);
      for i := 0 to |bans|
        invariant forall j | 0 <= j < i :: bans[j].name != lower
      {
        if bans[i].name == lower {
          return Somebody(bans[i]);
        }
      }
      found := Nobody;
    }

    lemma Spellings(name: seq<byte>)
      ensures AllLower(bans) ==>
        forall i | 0 <= i < |bans| :: bans[i].name == ToLower(name) <==> SameUpToCase(bans[i].name, name)
    {
      hide ToLower, SameUpToCase, IsLower;
      if AllLower(bans) {
        forall i | 0 <= i < |bans|
          ensures bans[i].name == ToLower(name) <==> SameUpToCase(bans[i].name, name)
        {
          StoredUnder(bans[i].name, name);
        }
      }
    }

    lemma RemovedAll(name: seq<byte>)
      ensures RemoveFrom(State(), name, 0).list == Kept(bans, name)
    {
      hide RemoveFrom, Kept;
      RemovedList(State(), name, 0);
      assert bans[0..] == bans && bans[..0] + Kept(bans, name) == Kept(bans, name);
    }

    method RemoveBan(name: seq<byte>)
      modifies this
      ensures State() == RemoveFrom(old(State()), ToLower(name), 0)
      ensures bans == Kept(old(bans), ToLower(name))
      ensures AllLower(old(bans)) ==>
        && AllLower(bans) && !Banned(bans, name)
        && forall b :: b in bans <==> b in old(bans) && !SameUpToCase(b.name, name)
    {
      hide IndexAfterRemove, ToLower, SameUpToCase, Kept, AllLower, Banned;
      RemovedAll(ToLower(name));
      if AllLower(bans) {
        NoneLeft(bans, name);
      }
      var lower := ToLower(name);
      var j := 0;
      while j < |bans|
        invariant RemoveFrom(State(), lower, j) == RemoveFrom(old(State()), lower, 0)
        decreases |bans| - j
      {
        if bans[j].name == lower {
          bans := bans[..j] + bans[j + 1..];
          UpdateMapRemoveBan(j);
        } else {
          j := j + 1;
        }
      }
    }
  }

  lemma NoNones(index: seq<nat>)
    ensures index + Nones(0) == index
  {
  }
}