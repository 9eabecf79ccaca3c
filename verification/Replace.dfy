/** UTIL_Replace of brtServer/util.cpp: replace the first occurrence until there is none. */
module Replace {

  predicate OccursAt(text: string, key: string, i: nat) {
    i + |key| <= |text| && text[i..i + |key|] == key
  }

  /** string::find, -1 for npos. */
  function Find(text: string, key: string): (r: int)
    ensures -1 <= r <= |text|
  {
    if key <= text then 0
    else if text == "" then -1
    else
      var r := Find(text[1..], key);
      if r < 0 then -1 else r + 1
  }

  /** It is the first occurrence, and -1 only when there is none. */
  lemma {:induction false} FindExact(text: string, key: string)
    ensures Find(text, key) >= 0 ==> OccursAt(text, key, Find(text, key))
    ensures forall i: nat | OccursAt(text, key, i) :: 0 <= Find(text, key) <= i
    decreases |text|
  {
    hide OccursAt;
    AtFront(text, key);
    if text == "" {
      NoneInEmpty(key);
    } else if !(key <= text) {
      FindExact(text[1..], key);
      var r := Find(text[1..], key);
      if r >= 0 {
        OccursInTail(text, key, r + 1);
      }
      forall i: nat | OccursAt(text, key, i)
        ensures 0 <= Find(text, key) <= i
      {
        if i > 0 {
          OccursInTail(text, key, i);
        }
      }
    }
  }

  lemma NoneInEmpty(key: string)
    ensures forall i: nat | OccursAt("", key, i) :: i == 0 && key == ""
  {
  }

  lemma OccursInTail(text: string, key: string, i: nat)
    requires text != "" && i > 0
    ensures OccursAt(text, key, i) <==> OccursAt(text[1..], key, i - 1)
  {
  }

  lemma AtFront(text: string, key: string)
    ensures OccursAt(text, key, 0) <==> key <= text
  {
  }

  predicate Contains(text: string, key: string) {
    Find(text, key) >= 0
  }

  /** One turn of the loop; a text without the key stays. */
  function ReplaceFirst(text: string, key: string, value: string): string {
    var r := Find(text, key);
    if r < 0 || r + |key| > |text| then text else text[..r] + value + text[r + |key|..]
  }

  /** What comes before the first occurrence and what comes behind it stay. */
  lemma ReplacedBetween(front: string, key: string, back: string, value: string)
    requires forall i: nat | i < |front| :: !OccursAt(front + key + back, key, i)
    ensures ReplaceFirst(front + key + back, key, value) == front + value + back
  {
    hide Find;
    var text := front + key + back;
    FindExact(text, key);
    assert OccursAt(text, key, |front|);
    assert text[..|front|] == front && text[|front| + |key|..] == back;
  }

  function Iterate(text: string, key: string, value: string, n: nat): string
    decreases n
  {
    if n == 0 then text else Iterate(ReplaceFirst(text, key, value), key, value, n - 1)
  }

  ghost predicate DoneAfter(text: string, key: string, value: string, n: nat) {
    !Contains(Iterate(text, key, value, n), key)
  }

  /** The loop comes to an end. */
  ghost predicate Halts(text: string, key: string, value: string) {
    exists n: nat :: DoneAfter(text, key, value, n)
  }

  /** Nothing happens when the value contains the key. Otherwise, whenever the
      loop ends at all, it ends with the iterated replacement and no key left. */
  method Replace(text0: string, key: string, value: string) returns (text: string, ghost turns: nat)
    requires Contains(value, key) || Halts(text0, key, value)
    ensures Contains(value, key) ==> text == text0
    ensures !Contains(value, key) ==> text == Iterate(text0, key, value, turns) && !Contains(text, key)
  {
    hide Find, ReplaceFirst;
    text, turns := text0, 0;
    if Find(value, key) != -1 {
      return;
    }
    ghost var left: nat :| DoneAfter(text0, key, value, left);
    var keyStart := Find(text, key);
    while keyStart != -1
      invariant keyStart == Find(text, key) && DoneAfter(text, key, value, left)
      invariant text == Iterate(text0, key, value, turns)
      decreases left
    {
      FindExact(text, key);
      DoneSooner(text, key, value, left);
      IterateSnoc(text0, key, value, turns);
      ReplacedAt(text, key, value);
      text := text[..keyStart] + value + text[keyStart + |key|..];
      keyStart := Find(text, key);
      left, turns := left - 1, turns + 1;
    }
  }

  lemma ReplacedAt(text: string, key: string, value: string)
    requires Contains(text, key)
    ensures var r := Find(text, key);
      r + |key| <= |text| && ReplaceFirst(text, key, value) == text[..r] + value + text[r + |key|..]
  {
  }

  lemma DoneSooner(text: string, key: string, value: string, n: nat)
    requires DoneAfter(text, key, value, n) && Contains(text, key)
    ensures n > 0 && DoneAfter(ReplaceFirst(text, key, value), key, value, n - 1)
  {
  }

  lemma {:induction false} IterateSnoc(text: string, key: string, value: string, n: nat)
    ensures Iterate(text, key, value, n + 1) == ReplaceFirst(Iterate(text, key, value, n), key, value)
    decreases n
  {
    hide Find, ReplaceFirst;
    if n > 0 {
      IterateSnoc(ReplaceFirst(text, key, value), key, value, n - 1);
    }
  }

  // ----- when it ends -----

  function Count(text: string, c: char): nat {
    if text == "" then 0 else (if text[0] == c then 1 else 0) + Count(text[1..], c)
  }

  lemma {:induction false} CountConcat(a: string, b: string, c: char)
    ensures Count(a + b, c) == Count(a, c) + Count(b, c)
  {
    if a == "" {
      assert a + b == b;
    } else {
      assert (a + b)[1..] == a[1..] + b;
      CountConcat(a[1..], b, c);
    }
  }

  lemma {:induction false} CountIn(text: string, c: char)
    ensures Count(text, c) > 0 <==> c in text
  {
    if text != "" {
      CountIn(text[1..], c);
    }
  }

  /** A character of the key that the value lacks becomes rarer with every turn. */
  lemma CountDrops(text: string, key: string, value: string, c: char)
    requires Contains(text, key) && c in key && c !in value
    ensures Count(ReplaceFirst(text, key, value), c) < Count(text, c)
  {
    hide Find, Count;
    ReplacedAt(text, key, value);
    FindExact(text, key);
    var r := Find(text, key);
    var back := text[r + |key|..];
    assert text == text[..r] + key + back;
    CountConcat(text[..r], key, c);
    CountConcat(text[..r] + key, back, c);
    CountConcat(text[..r], value, c);
    CountConcat(text[..r] + value, back, c);
    CountIn(key, c);
    CountIn(value, c);
  }

  /** With such a character the loop ends, after at most as many turns as the text
      holds that character. */
  lemma {:induction false} EndsWhenCharacterMissing(text: string, key: string, value: string, c: char) returns (n: nat)
    requires c in key && c !in value
    ensures n <= Count(text, c) && DoneAfter(text, key, value, n) && Halts(text, key, value)
    decreases Count(text, c)
  {
    hide Find, Count, ReplaceFirst;
    n := 0;
    if Contains(text, key) {
      CountDrops(text, key, value, c);
      var next := ReplaceFirst(text, key, value);
      var m := EndsWhenCharacterMissing(next, key, value, c);
      n := m + 1;
      assert Iterate(text, key, value, n) == Iterate(next, key, value, m);
    }
    assert DoneAfter(text, key, value, n);
  }

  /** So does a value shorter than the key. */
  lemma {:induction false} EndsWhenShorter(text: string, key: string, value: string) returns (n: nat)
    requires |value| < |key|
    ensures n <= |text| && DoneAfter(text, key, value, n) && Halts(text, key, value)
    decreases |text|
  {
    hide Find, ReplaceFirst;
    n := 0;
    if Contains(text, key) {
      ReplacedAt(text, key, value);
      FindExact(text, key);
      var next := ReplaceFirst(text, key, value);
      var m := EndsWhenShorter(next, key, value);
      n := m + 1;
      assert Iterate(text, key, value, n) == Iterate(next, key, value, m);
    }
    assert DoneAfter(text, key, value, n);
  }

  /** x comes before y, character by character. */
  predicate Before(x: string, y: string)
    requires |x| == |y|
  {
    x != "" && (x[0] < y[0] || (x[0] == y[0] && Before(x[1..], y[1..])))
  }

  lemma {:induction false} BeforeOrAfter(x: string, y: string)
    requires |x| == |y| && x != y
    ensures Before(x, y) || Before(y, x)
  {
    if x[0] == y[0] {
      assert x == [x[0]] + x[1..] && y == [y[0]] + y[1..];
      BeforeOrAfter(x[1..], y[1..]);
    }
  }

  /** The order is kept between the same texts on both sides. */
  lemma {:induction false} BeforeInside(front: string, x: string, y: string, back: string)
    requires |x| == |y| && Before(x, y)
    ensures Before(front + x + back, front + y + back)
    decreases |front|
  {
    if front == "" {
      assert front + x + back == x + back && front + y + back == y + back;
      BeforeFollowed(x, y, back);
    } else {
      BeforeInside(front[1..], x, y, back);
      assert (front + x + back)[1..] == front[1..] + x + back;
      assert (front + y + back)[1..] == front[1..] + y + back;
    }
  }

  lemma {:induction false} BeforeFollowed(x: string, y: string, back: string)
    requires |x| == |y| && Before(x, y)
    ensures Before(x + back, y + back)
  {
    if x[0] == y[0] {
      BeforeFollowed(x[1..], y[1..], back);
      assert (x + back)[1..] == x[1..] + back && (y + back)[1..] == y[1..] + back;
    }
  }

  const BASE: nat := 0x11_0000

  function Power(n: nat): (p: nat)
    ensures p > 0
  {
    if n == 0 then 1 else BASE * Power(n - 1)
  }

  /** The text as a number, its characters being the digits. */
  function Number(text: string): (v: nat)
    ensures v < Power(|text|)
  {
    if text == "" then 0
    else
      Digit(text[0] as int, Power(|text| - 1), Number(text[1..]));
      text[0] as int * Power(|text| - 1) + Number(text[1..])
  }

  lemma Digit(c: nat, p: nat, v: nat)
    requires c < BASE && v < p
    ensures c * p + v < BASE * p
  {
    MoreTimes(c + 1, BASE, p);
    OneMoreTime(c, p);
  }

  lemma MoreTimes(a: nat, b: nat, p: nat)
    requires a <= b
    ensures a * p <= b * p
  {
    assert (b - a) * p >= 0;
    assert (b - a) * p == b * p - a * p;
  }

  lemma OneMoreTime(c: nat, p: nat)
    ensures (c + 1) * p == c * p + p
  {
  }

  lemma SmallerDigit(c: nat, d: nat, p: nat, v: nat, w: nat)
    requires c < d && v < p
    ensures c * p + v < d * p + w
  {
    MoreTimes(c + 1, d, p);
    OneMoreTime(c, p);
  }

  lemma {:induction false} BeforeIsSmaller(x: string, y: string)
    requires |x| == |y| && Before(x, y)
    ensures Number(x) < Number(y)
  {
    if x[0] < y[0] {
      SmallerDigit(x[0] as int, y[0] as int, Power(|x| - 1), Number(x[1..]), Number(y[1..]));
    } else {
      BeforeIsSmaller(x[1..], y[1..]);
    }
  }

  /** How far the text's number can still move in the direction of the value. */
  function Room(text: string, key: string, value: string): nat
    requires |key| == |value|
  {
    if Before(value, key) then Number(text) else Power(|text|) - Number(text)
  }

  lemma RoomShrinks(text: string, key: string, value: string)
    requires Contains(text, key) && |key| == |value| && key != value
    ensures |ReplaceFirst(text, key, value)| == |text|
    ensures Room(ReplaceFirst(text, key, value), key, value) < Room(text, key, value)
  {
    hide Find, Number, Power, Before, ReplaceFirst;
    ReplacedAt(text, key, value);
    FindExact(text, key);
    var r := Find(text, key);
    var front, back := text[..r], text[r + |key|..];
    assert text == front + key + back;
    BeforeOrAfter(key, value);
    if Before(value, key) {
      BeforeInside(front, value, key, back);
      BeforeIsSmaller(front + value + back, front + key + back);
    } else {
      BeforeInside(front, key, value, back);
      BeforeIsSmaller(front + key + back, front + value + back);
    }
  }

  /** So does a different value of the key's length. */
  lemma {:induction false} EndsWhenSameLength(text: string, key: string, value: string) returns (n: nat)
    requires |value| == |key| && value != key
    ensures n <= Room(text, key, value) && DoneAfter(text, key, value, n) && Halts(text, key, value)
    decreases Room(text, key, value)
  {
    hide Find, ReplaceFirst, Number, Power, Before;
    n := 0;
    if Contains(text, key) {
      RoomShrinks(text, key, value);
      var next := ReplaceFirst(text, key, value);
      var m := EndsWhenSameLength(next, key, value);
      n := m + 1;
      assert Iterate(text, key, value, n) == Iterate(next, key, value, m);
    }
    assert DoneAfter(text, key, value, n);
  }

  /** For values no longer than the key the guard is enough, on every text. */
  lemma EndsWhenNotLonger(text: string, key: string, value: string)
    requires |value| <= |key| && !Contains(value, key)
    ensures Halts(text, key, value)
  {
    hide Find, Halts, Room;
    if |value| < |key| {
      var n := EndsWhenShorter(text, key, value);
    } else {
      ContainsSelf(key);
      var n := EndsWhenSameLength(text, key, value);
    }
  }

  lemma ContainsSelf(key: string)
    ensures Contains(key, key)
  {
  }

  /** Some end of the key, not all of it, is a start of the value. */
  ghost predicate EndMeetsStart(key: string, value: string) {
    exists i: nat :: 0 < i < |key| && Meets(key, value, i)
  }

  predicate Meets(key: string, value: string, i: nat) {
    i <= |key| && i <= |value| && key[|key| - i..] == value[..i]
  }

  lemma OccursInFront(front: string, one: string, other: string, key: string, q: nat)
    requires q + |key| <= |front|
    ensures OccursAt(front + one, key, q) <==> OccursAt(front + other, key, q)
  {
    assert (front + one)[q..q + |key|] == front[q..q + |key|] == (front + other)[q..q + |key|];
  }

  lemma OccursInMiddle(front: string, value: string, back: string, key: string, q: nat)
    requires |front| <= q && q + |key| <= |front| + |value| && OccursAt(front + value + back, key, q)
    ensures OccursAt(value, key, q - |front|)
  {
    var text := front + value + back;
    assert text[q..q + |key|] == value[q - |front|..q - |front| + |key|];
  }

  lemma OccursAcross(front: string, value: string, back: string, key: string, q: nat)
    requires q < |front| < q + |key| <= |front| + |value| && OccursAt(front + value + back, key, q)
    ensures EndMeetsStart(key, value)
  {
    var text := front + value + back;
    var i := q + |key| - |front|;
    assert key[|key| - i..] == text[q..q + |key|][|key| - i..] == text[|front|..|front| + i] == value[..i];
    assert Meets(key, value, i);
  }

  /** Then no occurrence ends inside the text up to the end of the new value. */
  lemma NextFurtherRight(text: string, key: string, value: string)
    requires Contains(text, key) && !Contains(value, key) && !EndMeetsStart(key, value)
    ensures var next := ReplaceFirst(text, key, value);
      Contains(next, key) ==> |next| - Find(next, key) < |text| - Find(text, key)
  {
    hide Find, OccursAt, EndMeetsStart, ReplaceFirst;
    ReplacedAt(text, key, value);
    var r := Find(text, key);
    var front, back := text[..r], text[r + |key|..];
    var next := front + value + back;
    var q := Find(next, key);
    FindExact(next, key);
    FindExact(text, key);
    FindExact(value, key);
    AtFront(value, key);
    OccursFits(next, key);
    if q >= 0 {
      if q + |key| <= r {
        assert text == front + (key + back) by { OccursCut(text, key, r); }
        assert next == front + (value + back);
        OccursInFront(front, key + back, value + back, key, q);
      } else if q + |key| <= r + |value| {
        if q < r {
          OccursAcross(front, value, back, key, q);
        } else {
          OccursInMiddle(front, value, back, key, q);
        }
      }
    }
  }

  lemma OccursCut(text: string, key: string, r: nat)
    requires OccursAt(text, key, r)
    ensures text == text[..r] + (key + text[r + |key|..])
  {
  }

  lemma OccursFits(text: string, key: string)
    ensures Contains(text, key) ==> Find(text, key) + |key| <= |text|
  {
    FindExact(text, key);
  }

  /** When no end of the key is a start of the value, the guard is enough too: the
      occurrences move right, so there are no more turns than characters. */
  lemma {:induction false} EndsWhenApart(text: string, key: string, value: string) returns (n: nat)
    requires !Contains(value, key) && !EndMeetsStart(key, value)
    ensures n <= |text| + 1 && DoneAfter(text, key, value, n) && Halts(text, key, value)
    ensures Contains(text, key) ==> n <= |text| - Find(text, key) + 1
    decreases if Contains(text, key) then |text| - Find(text, key) + 1 else 0
  {
    hide Find, ReplaceFirst, EndMeetsStart;
    n := 0;
    if Contains(text, key) {
      NextFurtherRight(text, key, value);
      var next := ReplaceFirst(text, key, value);
      var m := EndsWhenApart(next, key, value);
      n := if Contains(next, key) then m + 1 else 1;
      assert DoneAfter(next, key, value, n - 1);
      assert Iterate(text, key, value, n) == Iterate(next, key, value, n - 1);
    }
    assert DoneAfter(text, key, value, n);
  }

  /** Some start of the key, not all of it, is an end of the value. */
  ghost predicate StartMeetsEnd(key: string, value: string) {
    exists i: nat :: 0 < i < |key| && MeetsBehind(key, value, i)
  }

  predicate MeetsBehind(key: string, value: string, i: nat) {
    i <= |key| && i <= |value| && key[..i] == value[|value| - i..]
  }

  /** From i to j stands what is left of an inserted value: an end of it. */
  ghost predicate Remains(text: string, value: string, inserted: seq<bool>, i: nat, j: nat) {
    && i < j <= |text| == |inserted| && j - i <= |value| && text[i..j] == value[|value| - (j - i)..]
    && forall t | i <= t < j :: inserted[t]
  }

  /** Every inserted character begins such a part. */
  ghost predicate Marked(text: string, value: string, inserted: seq<bool>) {
    && |inserted| == |text|
    && forall i | 0 <= i < |text| && inserted[i] :: exists j: nat :: Remains(text, value, inserted, i, j)
  }

  lemma BeginsInside(text: string, key: string, value: string, inserted: seq<bool>, p: nat, j: nat)
    requires Remains(text, value, inserted, p, j) && OccursAt(text, key, p) && key != ""
    ensures Contains(value, key) || StartMeetsEnd(key, value)
  {
    hide Find;
    var n := j - p;
    if n >= |key| {
      assert value[|value| - n..][..|key|] == text[p..j][..|key|] == key;
      assert OccursAt(value, key, |value| - n);
      FindExact(value, key);
    } else {
      assert key[..n] == text[p..p + |key|][..n] == text[p..j];
      assert MeetsBehind(key, value, n);
    }
  }

  /** No occurrence of the key begins with an inserted character. */
  lemma BeginsOutside(text: string, key: string, value: string, inserted: seq<bool>, p: nat)
    requires Marked(text, value, inserted) && OccursAt(text, key, p) && key != ""
    requires !Contains(value, key) && !StartMeetsEnd(key, value)
    ensures !inserted[p]
  {
    hide Find, StartMeetsEnd;
    if inserted[p] {
      var j: nat :| Remains(text, value, inserted, p, j);
      BeginsInside(text, key, value, inserted, p, j);
    }
  }

  /** The marks after one turn at position p. */
  function Insert(inserted: seq<bool>, p: nat, size: nat, more: nat): seq<bool>
    requires p + size <= |inserted|
  {
    inserted[..p] + seq(more, _ => true) + inserted[p + size..]
  }

  lemma StaysMarked(text: string, key: string, value: string, inserted: seq<bool>, p: nat)
    requires Marked(text, value, inserted) && p + |key| <= |text| && key != "" && !inserted[p]
    ensures Marked(text[..p] + value + text[p + |key|..], value, Insert(inserted, p, |key|, |value|))
  {
    var next, marks := text[..p] + value + text[p + |key|..], Insert(inserted, p, |key|, |value|);
    forall i | 0 <= i < |next| && marks[i]
      ensures exists j: nat :: Remains(next, value, marks, i, j)
    {
      if i < p {
        var j: nat :| Remains(text, value, inserted, i, j);
        RemainsInFront(text, key, value, inserted, p, i, j);
      } else if i < p + |value| {
        RemainsOfNew(text, key, value, inserted, p, i);
      } else {
        var before := i + |key| - |value|;
        var j: nat :| Remains(text, value, inserted, before, j);
        RemainsBehind(text, key, value, inserted, p, before, j);
      }
    }
  }

  lemma RemainsInFront(text: string, key: string, value: string, inserted: seq<bool>, p: nat, i: nat, j: nat)
    requires Remains(text, value, inserted, i, j) && i < p && p + |key| <= |text| && key != "" && !inserted[p]
    ensures Remains(text[..p] + value + text[p + |key|..], value, Insert(inserted, p, |key|, |value|), i, j)
  {
    var next := text[..p] + value + text[p + |key|..];
    assert j <= p;
    assert next[i..j] == text[i..j];
  }

  lemma RemainsOfNew(text: string, key: string, value: string, inserted: seq<bool>, p: nat, i: nat)
    requires |inserted| == |text| && p + |key| <= |text| && p <= i < p + |value|
    ensures Remains(text[..p] + value + text[p + |key|..], value, Insert(inserted, p, |key|, |value|), i, p + |value|)
  {
    var next := text[..p] + value + text[p + |key|..];
    assert next[i..p + |value|] == value[i - p..];
  }

  lemma RemainsBehind(text: string, key: string, value: string, inserted: seq<bool>, p: nat, i: nat, j: nat)
    requires Remains(text, value, inserted, i, j) && p + |key| <= i
    ensures var d := |value| - |key|;
      Remains(text[..p] + value + text[p + |key|..], value, Insert(inserted, p, |key|, |value|), i + d, j + d)
  {
    var d := |value| - |key|;
    var next := text[..p] + value + text[p + |key|..];
    assert next[i + d..j + d] == text[i..j];
  }

  /** How many characters are still those of the first text. */
  function Untouched(inserted: seq<bool>): (n: nat)
    ensures n <= |inserted|
  {
    if inserted == [] then 0 else (if inserted[0] then 0 else 1) + Untouched(inserted[1..])
  }

  lemma {:induction false} UntouchedConcat(a: seq<bool>, b: seq<bool>)
    ensures Untouched(a + b) == Untouched(a) + Untouched(b)
  {
    hide Untouched;
    UntouchedFront(a);
    UntouchedFront(a + b);
    if a == [] {
      assert a + b == b;
    } else {
      assert (a + b)[1..] == a[1..] + b && (a + b)[0] == a[0];
      UntouchedConcat(a[1..], b);
    }
  }

  lemma UntouchedFront(a: seq<bool>)
    ensures Untouched(a) == if a == [] then 0 else (if a[0] then 0 else 1) + Untouched(a[1..])
  {
  }

  lemma {:induction false} AllInserted(n: nat)
    ensures Untouched(seq(n, _ => true)) == 0
  {
    if n > 0 {
      AllInserted(n - 1);
      assert seq(n, _ => true)[1..] == seq(n - 1, _ => true);
    }
  }

  /** One of them goes with every turn: the first character of the occurrence. */
  lemma UntouchedDrops(inserted: seq<bool>, p: nat, size: nat, more: nat)
    requires 0 < size && p + size <= |inserted| && !inserted[p]
    ensures Untouched(Insert(inserted, p, size, more)) < Untouched(inserted)
  {
    hide Untouched;
    var front, gone, back := inserted[..p], inserted[p..p + size], inserted[p + size..];
    assert inserted == front + gone + back;
    UntouchedConcat(front, gone);
    UntouchedConcat(front + gone, back);
    UntouchedConcat(front, seq(more, _ => true));
    UntouchedConcat(front + seq(more, _ => true), back);
    AllInserted(more);
    UntouchedFront(gone);
  }

  lemma {:induction false} EndsWhenMarked(text: string, key: string, value: string, inserted: seq<bool>)
    returns (n: nat)
    requires !Contains(value, key) && !StartMeetsEnd(key, value) && Marked(text, value, inserted)
    ensures n <= Untouched(inserted) && DoneAfter(text, key, value, n)
    decreases Untouched(inserted)
  {
    hide Find, ReplaceFirst, StartMeetsEnd, Marked, OccursAt, Insert, Untouched;
    n := 0;
    if Contains(text, key) {
      NotEmpty(key, value);
      ReplacedAt(text, key, value);
      FindExact(text, key);
      var p := Find(text, key);
      MarkedSize(text, value, inserted);
      BeginsOutside(text, key, value, inserted, p);
      StaysMarked(text, key, value, inserted, p);
      UntouchedDrops(inserted, p, |key|, |value|);
      var next := ReplaceFirst(text, key, value);
      var m := EndsWhenMarked(next, key, value, Insert(inserted, p, |key|, |value|));
      n := m + 1;
      assert Iterate(text, key, value, n) == Iterate(next, key, value, m);
    }
    assert DoneAfter(text, key, value, n);
  }

  lemma NotEmpty(key: string, value: string)
    requires !Contains(value, key)
    ensures key != ""
  {
    FindExact(value, key);
    AtFront(value, key);
  }

  lemma MarkedSize(text: string, value: string, inserted: seq<bool>)
    requires Marked(text, value, inserted)
    ensures |inserted| == |text|
  {
  }

  /** When no start of the key is an end of the value, every turn uses up a character
      of the first text, so there are no more turns than it has characters. */
  lemma EndsWhenApartBehind(text: string, key: string, value: string) returns (n: nat)
    requires !Contains(value, key) && !StartMeetsEnd(key, value)
    ensures n <= |text| && DoneAfter(text, key, value, n) && Halts(text, key, value)
  {
    hide Find, StartMeetsEnd;
    n := EndsWhenMarked(text, key, value, seq(|text|, _ => false));
  }

  /** A text on which the loop does not end although the guard lets it pass: then the
      value is longer than the key and over all its characters, and the two overlap
      on both sides. */
  lemma NeverEnding(text: string, key: string, value: string)
    requires !Contains(value, key) && !Halts(text, key, value)
    ensures |value| > |key| && (forall c | c in key :: c in value)
    ensures EndMeetsStart(key, value) && StartMeetsEnd(key, value)
  {
    hide Find, Halts, EndMeetsStart, StartMeetsEnd;
    if |value| <= |key| {
      EndsWhenNotLonger(text, key, value);
    }
    forall c | c in key
      ensures c in value
    {
      if c !in value {
        var n := EndsWhenCharacterMissing(text, key, value, c);
      }
    }
    if !EndMeetsStart(key, value) {
      var n := EndsWhenApart(text, key, value);
    }
    if !StartMeetsEnd(key, value) {
      var n := EndsWhenApartBehind(text, key, value);
    }
  }

  // ----- when the guard is not enough -----

  function Repeat(c: char, n: nat): (s: string)
    ensures |s| == n && forall i | 0 <= i < n :: s[i] == c
  {
    seq(n, _ => c)
  }

  /** k b's, then "aab", then m a's. */
  function Growing(k: nat, m: nat): string {
    Repeat('b', k) + "aab" + Repeat('a', m)
  }

  lemma TwoCharacters(text: string, a: char, b: char, i: nat)
    ensures OccursAt(text, [a, b], i) <==> i + 2 <= |text| && text[i] == a && text[i + 1] == b
  {
  }

  /** One replacement later: k b's, "abbaa", m a's. */
  function Between(k: nat, m: nat): string {
    Repeat('b', k) + "a" + "bbaa" + Repeat('a', m)
  }

  lemma FoundAt(text: string, key: string, i: nat)
    requires OccursAt(text, key, i) && forall j: nat | j < i :: !OccursAt(text, key, j)
    ensures Find(text, key) == i
  {
    hide Find;
    FindExact(text, key);
  }

  /** Replacing "ab" by "bbaa" in such a text twice gives a longer such text. */
  lemma GrowsInTwo(k: nat, m: nat)
    ensures Contains(Growing(k, m), "ab")
    ensures var next := ReplaceFirst(Growing(k, m), "ab", "bbaa");
      Contains(next, "ab") && ReplaceFirst(next, "ab", "bbaa") == Growing(k + 2, m + 2)
  {
    hide Find, ReplaceFirst;
    hide Between, Growing;
    GrowingStep(k, m);
    BetweenStep(k, m);
  }

  lemma GrowingStep(k: nat, m: nat)
    ensures Contains(Growing(k, m), "ab")
    ensures ReplaceFirst(Growing(k, m), "ab", "bbaa") == Between(k, m)
  {
    hide Find, ReplaceFirst;
    var text := Growing(k, m);
    assert text[k] == 'a' && text[k + 1] == 'a' && text[k + 2] == 'b';
    TwoCharacters(text, 'a', 'b', k + 1);
    forall j: nat | j < k + 1
      ensures !OccursAt(text, "ab", j)
    {
      TwoCharacters(text, 'a', 'b', j);
    }
    FoundAt(text, "ab", k + 1);
    ReplacedAt(text, "ab", "bbaa");
    assert text[..k + 1] == Repeat('b', k) + "a";
    assert text[k + 3..] == Repeat('a', m);
  }

  lemma BetweenStep(k: nat, m: nat)
    ensures Contains(Between(k, m), "ab") && ReplaceFirst(Between(k, m), "ab", "bbaa") == Growing(k + 2, m + 2)
  {
    hide Find, ReplaceFirst, OccursAt;
    var mid := Between(k, m);
    assert mid[k] == 'a' && mid[k + 1] == 'b';
    TwoCharacters(mid, 'a', 'b', k);
    forall j: nat | j < k
      ensures !OccursAt(mid, "ab", j)
    {
      TwoCharacters(mid, 'a', 'b', j);
    }
    FoundAt(mid, "ab", k);
    ReplacedAt(mid, "ab", "bbaa");
    assert mid[..k] == Repeat('b', k);
    assert mid[k + 2..] == "baa" + Repeat('a', m);
    assert Repeat('b', k + 2) == Repeat('b', k) + "bb";
    assert Repeat('a', m + 2) == "aa" + Repeat('a', m);
  }

  lemma {:induction false} GrowingNeverDone(k: nat, m: nat, n: nat)
    ensures !DoneAfter(Growing(k, m), "ab", "bbaa", n)
    decreases n
  {
    hide Find, ReplaceFirst, Growing;
    GrowsInTwo(k, m);
    var text := Growing(k, m);
    var next := ReplaceFirst(text, "ab", "bbaa");
    if n == 1 {
      assert Iterate(text, "ab", "bbaa", 1) == Iterate(next, "ab", "bbaa", 0);
    } else if n > 1 {
      GrowingNeverDone(k + 2, m + 2, n - 2);
      assert Iterate(text, "ab", "bbaa", n) == Iterate(next, "ab", "bbaa", n - 1);
      assert Iterate(next, "ab", "bbaa", n - 1) == Iterate(Growing(k + 2, m + 2), "ab", "bbaa", n - 2);
    }
  }

  /** "ab" by "bbaa" in "aab": the value does not contain the key, so the guard
      lets it pass, and the loop never ends. */
  lemma GuardNotEnough()
    ensures !Contains("bbaa", "ab") && !Halts("aab", "ab", "bbaa")
  {
    assert !Contains("bbaa", "ab") by {
      FindExact("bbaa", "ab");
      NoKeyInValue();
    }
    assert Growing(0, 0) == "aab";
    forall n: nat
      ensures !DoneAfter("aab", "ab", "bbaa", n)
    {
      GrowingNeverDone(0, 0, n);
    }
  }

  lemma NoKeyInValue()
    ensures forall i: nat :: !OccursAt("bbaa", "ab", i)
  {
    forall i: nat
      ensures !OccursAt("bbaa", "ab", i)
    {
      TwoCharacters("bbaa", 'a', 'b', i);
    }
  }
}
