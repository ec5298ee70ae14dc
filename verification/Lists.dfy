/** Sequences up to order. The network document is canonical because its result
    does not depend on how nodes and pins were listed; the facts that this takes
    are collected here: duplicates, images and parts under a function, the removal
    of one element, and sorting of byte strings by a key, which forgets the order in
    which elements were given. */
module Lists {
  import opened Prelude

  /** No element occurs twice. */
  ghost predicate Unique<T(!new)>(s: seq<T>) {
    forall x :: multiset(s)[x] <= 1
  }

  lemma UniqueStep<T(!new)>(s: seq<T>, x: T)
    ensures Unique(s + [x]) <==> Unique(s) && x !in s
  {
    assert multiset(s + [x]) == multiset(s) + multiset{x};
    if Unique(s + [x]) {
      assert multiset(s + [x])[x] <= 1;
      assert forall y :: multiset(s)[y] <= multiset(s + [x])[y];
    }
  }

  lemma UniquePrefix<T(!new)>(s: seq<T>, n: nat)
    requires n <= |s| && Unique(s)
    ensures Unique(s[..n])
  {
    assert s == s[..n] + s[n..];
    assert forall y :: multiset(s[..n])[y] <= multiset(s)[y];
  }

  lemma UniqueApart<T(!new)>(s: seq<T>)
    ensures Unique(s) <==> forall i, j :: 0 <= i < j < |s| ==> s[i] != s[j]
  {
    if Unique(s) {
      forall i, j | 0 <= i < j < |s| ensures s[i] != s[j] {
        Counted(s, i, j);
      }
    } else {
      var x :| multiset(s)[x] >= 2;
      Twice(s, x);
    }
  }

  lemma Counted<T>(s: seq<T>, i: nat, j: nat)
    requires i < j < |s|
    ensures multiset(s)[s[i]] >= if s[i] == s[j] then 2 else 1
  {
    assert s == s[..j] + s[j..] && s[i] == s[..j][i] && s[j] == s[j..][0];
    assert multiset(s)[s[i]] == multiset(s[..j])[s[i]] + multiset(s[j..])[s[i]];
  }

  lemma {:induction false} Twice<T>(s: seq<T>, x: T)
    requires multiset(s)[x] >= 2
    ensures exists i, j :: 0 <= i < j < |s| && s[i] == s[j]
    decreases |s|
  {
    var init, last := s[..|s| - 1], s[|s| - 1];
    assert s == init + [last];
    if last == x {
      assert x in init;
      var i :| 0 <= i < |init| && init[i] == x;
      assert s[i] == s[|s| - 1];
    } else {
      Twice(init, x);
      var i, j :| 0 <= i < j < |init| && init[i] == init[j];
      assert s[i] == s[j];
    }
  }

  function Image<T, U>(s: seq<T>, f: T -> U): (r: seq<U>)
    ensures |r| == |s| && forall i :: 0 <= i < |s| ==> r[i] == f(s[i])
  {
    if s == [] then [] else Image(s[..|s| - 1], f) + [f(s[|s| - 1])]
  }

  /** All parts of all elements. */
  function Parts<T, U>(s: seq<T>, f: T -> seq<U>): seq<U> {
    if s == [] then [] else Parts(s[..|s| - 1], f) + f(s[|s| - 1])
  }

  function Without<T>(s: seq<T>, k: nat): (r: seq<T>)
    requires k < |s|
    ensures |r| == |s| - 1
  {
    s[..k] + s[k + 1..]
  }

  lemma PartsPlus<T, U>(s: seq<T>, x: T, f: T -> seq<U>)
    ensures Parts(s + [x], f) == Parts(s, f) + f(x)
  {
    assert (s + [x])[..|s|] == s;
  }

  lemma WithoutPlus<T>(s: seq<T>, x: T, k: nat)
    requires k <= |s|
    ensures Without(s + [x], k) == if k == |s| then s else Without(s, k) + [x]
  {
  }

  lemma {:induction false} PartsRemove<T, U>(s: seq<T>, f: T -> seq<U>, k: nat)
    requires k < |s|
    ensures multiset(Parts(s, f)) == multiset(Parts(Without(s, k), f)) + multiset(f(s[k]))
    decreases |s|
  {
    hide *;
    var init, last := s[..|s| - 1], s[|s| - 1];
    assert s == init + [last];
    PartsPlus(init, last, f);
    WithoutPlus(init, last, k);
    if k < |init| {
      PartsRemove(init, f, k);
      PartsPlus(Without(init, k), last, f);
    }
  }

  lemma Removed<T>(s: seq<T>, k: nat)
    requires k < |s|
    ensures multiset(Without(s, k)) == multiset(s) - multiset{s[k]}
  {
    assert s == s[..k] + [s[k]] + s[k + 1..];
  }

  /** The same element can be found, and taken out, in another order. */
  lemma Matched<T>(a: seq<T>, b: seq<T>) returns (k: nat)
    requires a != [] && multiset(a) == multiset(b)
    ensures k < |b| && b[k] == a[0] && multiset(Without(a, 0)) == multiset(Without(b, k))
  {
    assert a[0] in multiset(b);
    k :| 0 <= k < |b| && b[k] == a[0];
    Removed(a, 0);
    Removed(b, k);
  }

  /** Rearranging elements rearranges their parts. */
  lemma {:induction false} PartsOrder<T, U>(a: seq<T>, b: seq<T>, f: T -> seq<U>)
    requires multiset(a) == multiset(b)
    ensures multiset(Parts(a, f)) == multiset(Parts(b, f))
    decreases |a|
  {
    hide *;
    if a == [] {
      assert |multiset(b)| == 0;
    } else {
      var k := Matched(a, b);
      PartsOrder(Without(a, 0), Without(b, k), f);
      PartsRemove(a, f, 0);
      PartsRemove(b, f, k);
    }
  }

  function One<T, U>(f: T -> U): T -> seq<U> {
    (x: T) => [f(x)]
  }

  lemma {:induction false} ImageParts<T, U>(s: seq<T>, f: T -> U)
    ensures Parts(s, One(f)) == Image(s, f)
  {
    if s != [] {
      ImageParts(s[..|s| - 1], f);
    }
  }

  lemma ImageOrder<T, U>(a: seq<T>, b: seq<T>, f: T -> U)
    requires multiset(a) == multiset(b)
    ensures multiset(Image(a, f)) == multiset(Image(b, f))
  {
    ImageParts(a, f);
    ImageParts(b, f);
    PartsOrder(a, b, One(f));
  }

  // ------------------------------------------------------------------ order

  /** Byte strings in lexicographic order. */
  predicate Below(a: bytes, b: bytes) {
    b != [] && (a == [] || a[0] < b[0] || (a[0] == b[0] && Below(a[1..], b[1..])))
  }

  lemma {:induction false} BelowTotal(a: bytes, b: bytes)
    ensures a == b || Below(a, b) || Below(b, a)
    ensures !(Below(a, b) && Below(b, a)) && !Below(a, a)
  {
    if a != [] && b != [] && a[0] == b[0] {
      BelowTotal(a[1..], b[1..]);
      assert a == [a[0]] + a[1..] && b == [b[0]] + b[1..];
    }
    if a != [] {
      BelowTotal(a[1..], a[1..]);
    }
  }

  lemma {:induction false} BelowChain(a: bytes, b: bytes, c: bytes)
    requires Below(a, b) && Below(b, c)
    ensures Below(a, c)
  {
    if a != [] && a[0] == b[0] == c[0] {
      BelowChain(a[1..], b[1..], c[1..]);
    }
  }

  /** Strictly rising keys. */
  ghost predicate Rising<T>(s: seq<T>, key: T -> bytes) {
    forall i, j :: 0 <= i < j < |s| ==> Below(key(s[i]), key(s[j]))
  }

  function Insert<T>(x: T, s: seq<T>, key: T -> bytes): seq<T> {
    if s == [] || !Below(key(s[0]), key(x)) then [x] + s else [s[0]] + Insert(x, s[1..], key)
  }

  function Sorted<T>(s: seq<T>, key: T -> bytes): seq<T> {
    if s == [] then [] else Insert(s[|s| - 1], Sorted(s[..|s| - 1], key), key)
  }

  lemma {:induction false} InsertBag<T>(x: T, s: seq<T>, key: T -> bytes)
    ensures multiset(Insert(x, s, key)) == multiset(s) + multiset{x}
  {
    if s != [] && Below(key(s[0]), key(x)) {
      InsertBag(x, s[1..], key);
      assert s == [s[0]] + s[1..];
    }
  }

  lemma {:induction false} SortedBag<T>(s: seq<T>, key: T -> bytes)
    ensures multiset(Sorted(s, key)) == multiset(s)
  {
    if s != [] {
      SortedBag(s[..|s| - 1], key);
      InsertBag(s[|s| - 1], Sorted(s[..|s| - 1], key), key);
      assert s == s[..|s| - 1] + [s[|s| - 1]];
    }
  }

  lemma {:induction false} InsertRises<T>(x: T, s: seq<T>, key: T -> bytes)
    requires Rising(s, key) && forall i :: 0 <= i < |s| ==> key(s[i]) != key(x)
    ensures Rising(Insert(x, s, key), key)
    decreases |s|
  {
    if s == [] {
    } else if Below(key(s[0]), key(x)) {
      var rest := Insert(x, s[1..], key);
      InsertRises(x, s[1..], key);
      InsertBag(x, s[1..], key);
      forall j | 0 <= j < |rest| ensures Below(key(s[0]), key(rest[j])) {
        assert rest[j] in multiset(rest);
        if rest[j] != x {
          assert rest[j] in s[1..];
        }
      }
    } else {
      BelowTotal(key(s[0]), key(x));
      forall j | 0 < j < |s| ensures Below(key(x), key(s[j])) {
        BelowChain(key(x), key(s[0]), key(s[j]));
      }
    }
  }

  ghost predicate DistinctKeys<T>(s: seq<T>, key: T -> bytes) {
    forall i, j :: 0 <= i < j < |s| ==> key(s[i]) != key(s[j])
  }

  lemma {:induction false} SortedRises<T>(s: seq<T>, key: T -> bytes)
    requires DistinctKeys(s, key)
    ensures Rising(Sorted(s, key), key)
    decreases |s|
  {
    if s != [] {
      var init, last := s[..|s| - 1], s[|s| - 1];
      SortedRises(init, key);
      SortedBag(init, key);
      var t := Sorted(init, key);
      forall i | 0 <= i < |t| ensures key(t[i]) != key(last) {
        assert t[i] in multiset(t);
        var k :| 0 <= k < |init| && init[k] == t[i];
        assert key(s[k]) != key(s[|s| - 1]);
      }
      InsertRises(last, t, key);
    }
  }

  /** A rising order of given elements is unique. */
  lemma {:induction false} RisingUnique<T>(a: seq<T>, b: seq<T>, key: T -> bytes)
    requires Rising(a, key) && Rising(b, key) && multiset(a) == multiset(b)
    ensures a == b
    decreases |a|
  {
    assert |a| == |multiset(a)| == |multiset(b)| == |b|;
    if a != [] {
      SameFirst(a, b, key);
      assert multiset(a[1..]) == multiset(a) - multiset{a[0]} by { assert a == [a[0]] + a[1..]; }
      assert multiset(b[1..]) == multiset(b) - multiset{b[0]} by { assert b == [b[0]] + b[1..]; }
      RisingUnique(a[1..], b[1..], key);
      assert a == [a[0]] + a[1..] && b == [b[0]] + b[1..];
    }
  }

  lemma SameFirst<T>(a: seq<T>, b: seq<T>, key: T -> bytes)
    requires Rising(a, key) && Rising(b, key) && multiset(a) == multiset(b) && a != [] && b != []
    ensures a[0] == b[0]
  {
    assert a[0] in multiset(b) && b[0] in multiset(a);
    var j :| 0 <= j < |b| && b[j] == a[0];
    var i :| 0 <= i < |a| && a[i] == b[0];
    if j > 0 && i > 0 {
      assert Below(key(b[0]), key(b[j])) && Below(key(a[0]), key(a[i]));
      BelowTotal(key(a[0]), key(b[0]));
    }
  }

  /** Sorting forgets the order in which elements were listed. */
  lemma SortedOrder<T>(a: seq<T>, b: seq<T>, key: T -> bytes)
    requires multiset(a) == multiset(b) && DistinctKeys(a, key) && DistinctKeys(b, key)
    ensures Sorted(a, key) == Sorted(b, key)
  {
    SortedBag(a, key);
    SortedBag(b, key);
    SortedRises(a, key);
    SortedRises(b, key);
    RisingUnique(Sorted(a, key), Sorted(b, key), key);
  }
}
