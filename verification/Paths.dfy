/** Slash-separated names: components, joining, and the ancestor directories
    that every path implies. Inventory checks, name collisions, unpacking and the
    walk over an installed tree all speak of a path's ancestors; some reach them by
    components and some by cutting the text at slashes, and the lemmas here show
    that both are the same. */
module Paths {
  import opened Prelude

  function Split(p: bytes): (parts: seq<bytes>)
    ensures |parts| >= 1
    decreases |p|
  {
    var k := Find(p, SLASH);
    if k == |p| then [p] else [p[..k]] + Split(p[k + 1..])
  }

  function Join(parts: seq<bytes>): bytes
    requires |parts| >= 1
  {
    if |parts| == 1 then parts[0] else parts[0] + [SLASH] + Join(parts[1..])
  }

  lemma {:induction false} JoinSplit(p: bytes)
    ensures Join(Split(p)) == p
    decreases |p|
  {
    var k := Find(p, SLASH);
    if k == |p| {
      assert p[..k] == p;
    } else {
      JoinSplit(p[k + 1..]);
      assert p == p[..k] + [SLASH] + p[k + 1..];
      assert Split(p)[1..] == Split(p[k + 1..]);
    }
  }

  /** The directories a path passes through: its prefixes before each slash. */
  function Ancestors(p: bytes): set<bytes> {
    set i | 0 <= i < |p| && p[i] == SLASH :: p[..i]
  }

  /** The number of components, and the path up to its `end`-th one. */
  function Count(p: bytes): (n: nat)
    ensures n >= 1
    decreases |p|
  {
    var k := Find(p, SLASH);
    if k == |p| then 1 else 1 + Count(p[k + 1..])
  }

  function Prefix(p: bytes, end: nat): bytes
    requires 1 <= end <= Count(p)
    decreases end
  {
    var k := Find(p, SLASH);
    if end == 1 then p[..k] else p[..k] + [SLASH] + Prefix(p[k + 1..], end - 1)
  }

  lemma JoinCons(head: bytes, tail: seq<bytes>)
    requires |tail| >= 1
    ensures Join([head] + tail) == head + [SLASH] + Join(tail)
  {
    assert ([head] + tail)[1..] == tail;
  }

  lemma {:induction false} SplitCount(p: bytes)
    ensures |Split(p)| == Count(p)
    decreases |p|
  {
    var k := Find(p, SLASH);
    if k < |p| {
      SplitCount(p[k + 1..]);
    }
  }

  /** `Split` then `Join` of the first components is the prefix of the text. */
  lemma {:induction false} PrefixJoin(p: bytes, parts: seq<bytes>, end: nat)
    requires parts == Split(p) && 1 <= end <= Count(p)
    ensures end <= |parts| && Join(parts[..end]) == Prefix(p, end)
    decreases end
  {
    hide Find;
    var k := Find(p, SLASH);
    SplitCount(p);
    if end == 1 {
      assert p[..k] == if k == |p| then p else p[..k];
      assert parts[..1] == [p[..k]];
    } else {
      var tail := Split(p[k + 1..]);
      assert parts == [p[..k]] + tail;
      PrefixJoin(p[k + 1..], tail, end - 1);
      JoinCons(p[..k], tail[..end - 1]);
      assert parts[..end] == [p[..k]] + tail[..end - 1];
    }
  }

  lemma SlicePast(p: bytes, k: nat, j: nat)
    requires k < |p| && p[k] == SLASH && k + 1 + j <= |p|
    ensures p[..k] + [SLASH] + p[k + 1..][..j] == p[..k + 1 + j]
    ensures j < |p[k + 1..]| ==> p[k + 1..][j] == p[k + 1 + j]
  {
  }

  lemma PrefixNext(p: bytes, end: nat, k: nat)
    requires 1 < end <= Count(p) && k == Find(p, SLASH)
    ensures k < |p| && Count(p) == 1 + Count(p[k + 1..])
    ensures Prefix(p, end) == p[..k] + [SLASH] + Prefix(p[k + 1..], end - 1)
  {
  }

  lemma PrefixOne(p: bytes, k: nat)
    requires k == Find(p, SLASH)
    ensures Prefix(p, 1) == p[..k] && (Count(p) == 1 <==> k == |p|)
  {
  }

  /** Where the `end`-component prefix stops: at a slash, or at the end. */
  lemma {:induction false} PrefixStops(p: bytes, end: nat) returns (i: nat)
    requires 1 <= end <= Count(p)
    ensures i <= |p| && Prefix(p, end) == p[..i]
    ensures if end == Count(p) then i == |p| else i < |p| && p[i] == SLASH
    decreases end
  {
    hide Count, Prefix;
    var k := Find(p, SLASH);
    if end == 1 {
      PrefixOne(p, k);
      i := k;
    } else {
      PrefixNext(p, end, k);
      var j := PrefixStops(p[k + 1..], end - 1);
      SlicePast(p, k, j);
      i := k + 1 + j;
    }
  }

  lemma PrefixPast(p: bytes, k: nat, rest: bytes, inner: nat)
    requires k == Find(p, SLASH) < |p| && rest == p[k + 1..] && 1 <= inner < Count(rest)
    ensures inner + 1 < Count(p) && Prefix(p, inner + 1) == p[..k] + [SLASH] + Prefix(rest, inner)
  {
    hide Find;
  }

  lemma PrefixFirst(p: bytes, k: nat)
    requires k == Find(p, SLASH) < |p|
    ensures 1 < Count(p) && Prefix(p, 1) == p[..k]
  {
    hide Find;
  }

  lemma {:induction false} SlashIsPrefix(p: bytes, i: nat) returns (end: nat)
    requires i < |p| && p[i] == SLASH
    ensures 1 <= end < Count(p) && Prefix(p, end) == p[..i]
    decreases |p|
  {
    hide Find, Count, Prefix;
    var k := Find(p, SLASH);
    if i == k {
      PrefixFirst(p, k);
      end := 1;
    } else {
      var rest := p[k + 1..];
      assert rest[i - k - 1] == SLASH;
      var inner := SlashIsPrefix(rest, i - k - 1);
      PrefixPast(p, k, rest, inner);
      SlicePast(p, k, i - k - 1);
      end := inner + 1;
    }
  }

  /** The last slash, or -1. */
  function LastSlash(p: bytes): (k: int)
    ensures -1 <= k < |p|
    ensures k >= 0 ==> p[k] == SLASH
    ensures forall i :: k < i < |p| ==> p[i] != SLASH
  {
    if p == [] then -1
    else if p[|p| - 1] == SLASH then |p| - 1
    else LastSlash(p[..|p| - 1])
  }

  /** An ancestor of an ancestor is an ancestor. */
  lemma AncestorsNest(p: bytes, a: bytes)
    requires a in Ancestors(p)
    ensures Ancestors(a) <= Ancestors(p)
  {
    var i :| 0 <= i < |p| && p[i] == SLASH && p[..i] == a;
    forall b | b in Ancestors(a)
      ensures b in Ancestors(p)
    {
      var j :| 0 <= j < |a| && a[j] == SLASH && a[..j] == b;
      assert p[j] == SLASH && p[..j] == b;
    }
  }
}
