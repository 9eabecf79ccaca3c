/** Names that differ only in the case of ASCII letters are one name: the ban list
    keeps and looks up the lower-case spelling. */
module Names {
  import opened Bytes

  /** The transform with tolower of the C locale. */
  function ToLower(name: seq<byte>): (r: seq<byte>)
    ensures |r| == |name|
  {
    seq(|name|, i requires 0 <= i < |name| => if 65 <= name[i] <= 90 then name[i] + 32 else name[i])
  }

  /** The same byte, or an upper-case letter and its lower-case one. */
  predicate SameLetterUpToCase(x: byte, y: byte) {
    || x == y
    || (65 <= x <= 90 && y as int == x as int + 32)
    || (65 <= y <= 90 && x as int == y as int + 32)
  }

  predicate SameUpToCase(a: seq<byte>, b: seq<byte>) {
    |a| == |b| && forall i | 0 <= i < |a| :: SameLetterUpToCase(a[i], b[i])
  }

  predicate IsLower(name: seq<byte>) {
    forall i | 0 <= i < |name| :: !(65 <= name[i] <= 90)
  }

  /** No upper-case letter is left, no other byte changes, and a lower-case name stays. */
  lemma LowerIsLower(name: seq<byte>)
    ensures IsLower(ToLower(name))
    ensures forall i | 0 <= i < |name| && !(65 <= name[i] <= 90) :: ToLower(name)[i] == name[i]
    ensures IsLower(name) ==> ToLower(name) == name
  {
  }

  /** Two names are stored alike exactly when they differ in case only. */
  lemma LowerExact(a: seq<byte>, b: seq<byte>)
    ensures ToLower(a) == ToLower(b) <==> SameUpToCase(a, b)
  {
    var x, y := ToLower(a), ToLower(b);
    if x == y {
      forall i | 0 <= i < |a|
        ensures SameLetterUpToCase(a[i], b[i])
      {
        assert x[i] == y[i];
      }
    }
    if SameUpToCase(a, b) {
      forall i | 0 <= i < |x|
        ensures x[i] == y[i]
      {
        assert SameLetterUpToCase(a[i], b[i]);
      }
    }
  }

  /** A stored name is found under every spelling of it and no other. */
  lemma StoredUnder(stored: seq<byte>, name: seq<byte>)
    requires IsLower(stored)
    ensures stored == ToLower(name) <==> SameUpToCase(stored, name)
  {
    LowerIsLower(stored);
    LowerExact(stored, name);
  }
}
