/** Re-verifying an installed tree (src/install/installed.rs): the recursive walk
    over the directory listing, the counting that makes it exact, and the checks
    of manifest, receipt and signature around it. */
module InstalledTree {
  import opened Prelude
  import opened Paths
  import opened Package
  import opened Inventory
  import opened Aliases
  import opened Printer
  import opened Verifier

  const MODE_DIRECTORY: nat := 0x1C0 // 0700
  const MODE_PRIVATE: nat := 0x180 // 0600

  /** What one directory entry is, and for a directory what it lists. */
  datatype Item =
    | Directory(mode: nat, entries: seq<Entry>)
    | Regular(mode: nat, links: nat, data: bytes)
    | Special

  datatype Entry = Entry(name: bytes, item: Item)

  predicate NameOk(name: bytes) {
    name != [] && SLASH !in name
  }

  /** What any file system guarantees of a listing. */
  ghost predicate WellListed(entries: seq<Entry>)
    decreases entries
  {
    && (forall i, j :: 0 <= i < j < |entries| ==> entries[i].name != entries[j].name)
    && (forall i :: 0 <= i < |entries| ==> NameOk(entries[i].name))
    && (forall i :: 0 <= i < |entries| && entries[i].item.Directory? ==> WellListed(entries[i].item.entries))
  }

  function Extend(prefix: bytes, name: bytes): bytes {
    if prefix == [] then name else prefix + [SLASH] + name
  }

  /** Everything below a directory, by path. */
  ghost function Flat(prefix: bytes, entries: seq<Entry>): map<bytes, Item>
    decreases entries
  {
    if entries == [] then map[]
    else Flat(prefix, entries[..|entries| - 1]) + Below(prefix, entries[|entries| - 1])
  }

  ghost function Below(prefix: bytes, e: Entry): map<bytes, Item>
    decreases e
  {
    var p := Extend(prefix, e.name);
    if e.item.Directory? then Flat(p, e.item.entries)[p := e.item] else map[p := e.item]
  }

  // ----------------------------------------- different entries share no path

  /** A path at or below `top`. */
  predicate Under(p: bytes, top: bytes) {
    p == top || HasPrefix(p, top + [SLASH])
  }

  lemma UnderDeeper(p: bytes, prefix: bytes, name: bytes)
    requires prefix != [] && Under(p, Extend(prefix, name))
    ensures Under(p, prefix)
  {
    var q := prefix + [SLASH];
    assert Extend(prefix, name)[..|q|] == q;
    if p != Extend(prefix, name) {
      var long := Extend(prefix, name) + [SLASH];
      assert p[..|long|][..|q|] == p[..|q|] && long[..|q|] == q;
    }
  }

  lemma {:induction false} FlatUnder(prefix: bytes, entries: seq<Entry>, p: bytes)
    requires prefix != [] && WellListed(entries) && p in Flat(prefix, entries)
    ensures Under(p, prefix)
    decreases entries
  {
    var init, last := entries[..|entries| - 1], entries[|entries| - 1];
    WellListedInit(entries);
    if p in Below(prefix, last) {
      BelowUnder(prefix, last, p);
      UnderDeeper(p, prefix, last.name);
    } else {
      FlatUnder(prefix, init, p);
    }
  }

  lemma {:induction false} BelowUnder(prefix: bytes, e: Entry, p: bytes)
    requires NameOk(e.name) && (e.item.Directory? ==> WellListed(e.item.entries)) && p in Below(prefix, e)
    ensures Under(p, Extend(prefix, e.name))
    decreases e
  {
    if p != Extend(prefix, e.name) {
      FlatUnder(Extend(prefix, e.name), e.item.entries, p);
    }
  }

  lemma WellListedInit(entries: seq<Entry>)
    requires WellListed(entries) && entries != []
    ensures WellListed(entries[..|entries| - 1]) && NameOk(entries[|entries| - 1].name)
    ensures entries[|entries| - 1].item.Directory? ==> WellListed(entries[|entries| - 1].item.entries)
  {
  }

  /** The part of a path that names an entry of `prefix`. */
  function Component(prefix: bytes, p: bytes): bytes {
    var base := if prefix == [] then 0 else |prefix| + 1;
    if base > |p| then [] else p[base..][..Find(p[base..], SLASH)]
  }

  lemma UnderComponent(prefix: bytes, name: bytes, p: bytes)
    requires NameOk(name) && Under(p, Extend(prefix, name))
    ensures Component(prefix, p) == name
  {
    var base := if prefix == [] then 0 else |prefix| + 1;
    var top := Extend(prefix, name);
    var lead := top[..base];
    assert top == lead + name;
    if p == top {
      CutComponent(lead, name, name);
    } else {
      var tail := p[|top| + 1..];
      var s := name + [SLASH] + tail;
      FoundAfter(name, tail);
      Rejoined(p, lead, name);
      CutComponent(lead, name, s);
    }
  }

  lemma Rejoined(p: bytes, lead: bytes, name: bytes)
    requires HasPrefix(p, lead + name + [SLASH])
    ensures p == lead + (name + [SLASH] + p[|lead + name| + 1..])
  {
    assert p == p[..|lead + name| + 1] + p[|lead + name| + 1..];
  }

  lemma FoundAfter(name: bytes, tail: bytes)
    requires NameOk(name)
    ensures Find(name + [SLASH] + tail, SLASH) == |name|
  {
    FindIs(name + [SLASH] + tail, SLASH, |name|);
  }

  lemma CutComponent(lead: bytes, name: bytes, s: bytes)
    requires NameOk(name) && (s == name || (HasPrefix(s, name) && Find(s, SLASH) == |name|))
    ensures (lead + s)[|lead|..] == s && s[..Find(s, SLASH)] == name
  {
    if s == name {
      FindIs(name, SLASH, |name|);
    }
  }

  lemma BelowApart(prefix: bytes, a: Entry, b: Entry)
    requires NameOk(a.name) && (a.item.Directory? ==> WellListed(a.item.entries))
    requires NameOk(b.name) && (b.item.Directory? ==> WellListed(b.item.entries))
    requires a.name != b.name
    ensures Below(prefix, a).Keys !! Below(prefix, b).Keys
  {
    forall p | p in Below(prefix, a) ensures p !in Below(prefix, b) {
      BelowUnder(prefix, a, p);
      UnderComponent(prefix, a.name, p);
      if p in Below(prefix, b) {
        BelowUnder(prefix, b, p);
        UnderComponent(prefix, b.name, p);
      }
    }
  }

  /** The paths of one entry are new to the entries listed before it. */
  lemma {:induction false} FlatApart(prefix: bytes, entries: seq<Entry>, e: Entry)
    requires WellListed(entries) && NameOk(e.name) && (e.item.Directory? ==> WellListed(e.item.entries))
    requires forall i :: 0 <= i < |entries| ==> entries[i].name != e.name
    ensures Flat(prefix, entries).Keys !! Below(prefix, e).Keys
    decreases |entries|
  {
    if entries != [] {
      var init, last := entries[..|entries| - 1], entries[|entries| - 1];
      WellListedInit(entries);
      FlatApart(prefix, init, e);
      BelowApart(prefix, last, e);
    }
  }

  /** Earlier entries keep their paths and items in the whole. */
  lemma {:induction false} FlatPrefix(prefix: bytes, entries: seq<Entry>, n: nat)
    requires WellListed(entries) && n <= |entries|
    ensures WellListed(entries[..n])
    ensures forall p <- Flat(prefix, entries[..n]) ::
              p in Flat(prefix, entries) && Flat(prefix, entries)[p] == Flat(prefix, entries[..n])[p]
    decreases |entries|
  {
    if n == |entries| {
      assert entries[..n] == entries;
    } else {
      var init, last := entries[..|entries| - 1], entries[|entries| - 1];
      WellListedInit(entries);
      assert init[..n] == entries[..n];
      FlatPrefix(prefix, init, n);
      FlatApart(prefix, init, last);
    }
  }

  // ---------------------------------------------------------------- the walk

  /** What the inventory expects at a path. */
  datatype Wanted = WantDirectory | WantFile(size: nat, mode: nat, hash: bytes)

  predicate Matches(sha256: bytes -> bytes, item: Item, w: Wanted, hashing: bool) {
    match w
    case WantDirectory => item.Directory? && item.mode == MODE_DIRECTORY
    case WantFile(size, mode, hash) =>
      && item.Regular? && item.links == 1 && item.mode == mode && |item.data| == size
      && (hashing ==> sha256(item.data) == hash)
  }

  ghost predicate Fits(sha256: bytes -> bytes, flat: map<bytes, Item>, expected: map<bytes, Wanted>, hashing: bool) {
    forall p <- flat :: p in expected && Matches(sha256, flat[p], expected[p], hashing)
  }

  lemma FitsSum(sha256: bytes -> bytes, a: map<bytes, Item>, b: map<bytes, Item>,
                expected: map<bytes, Wanted>, hashing: bool)
    requires a.Keys !! b.Keys
    ensures Fits(sha256, a + b, expected, hashing) <==>
              Fits(sha256, a, expected, hashing) && Fits(sha256, b, expected, hashing)
  {
    hide Matches;
    if Fits(sha256, a + b, expected, hashing) {
      forall p | p in a ensures p in expected && Matches(sha256, a[p], expected[p], hashing) {
        assert p in a + b;
      }
      forall p | p in b ensures p in expected && Matches(sha256, b[p], expected[p], hashing) {
        assert p in a + b;
      }
    }
  }

  lemma FitsWithin(sha256: bytes -> bytes, part: map<bytes, Item>, whole: map<bytes, Item>,
                   expected: map<bytes, Wanted>, hashing: bool)
    requires forall p <- part :: p in whole && whole[p] == part[p]
    requires Fits(sha256, whole, expected, hashing)
    ensures Fits(sha256, part, expected, hashing)
  {
    hide Matches;
  }

  lemma FitsPlus(sha256: bytes -> bytes, flat: map<bytes, Item>, p: bytes, item: Item,
                 expected: map<bytes, Wanted>, hashing: bool)
    requires p !in flat
    ensures Fits(sha256, flat[p := item], expected, hashing) <==>
              p in expected && Matches(sha256, item, expected[p], hashing) && Fits(sha256, flat, expected, hashing)
  {
    hide Matches;
    if Fits(sha256, flat[p := item], expected, hashing) {
      forall q | q in flat ensures q in expected && Matches(sha256, flat[q], expected[q], hashing) {
        assert q in flat[p := item];
      }
      assert p in flat[p := item];
    }
  }

  lemma FewerSeen(seen: set<bytes>, all: set<bytes>, p: bytes)
    requires seen <= all && p in all && p !in seen
    ensures |seen| < |all|
  {
    SubsetSize(seen, all - {p});
  }

  lemma {:induction false} SubsetSize(a: set<bytes>, b: set<bytes>)
    requires a <= b
    ensures |a| <= |b| && (|a| == |b| ==> a == b)
    decreases |a|
  {
    if a != {} {
      var x :| x in a;
      SubsetSize(a - {x}, b - {x});
      assert a == a - {x} + {x} && b == b - {x} + {x};
    }
  }

  lemma OwnPath(prefix: bytes, e: Entry)
    requires NameOk(e.name) && e.item.Directory? && WellListed(e.item.entries)
    ensures Extend(prefix, e.name) !in Flat(Extend(prefix, e.name), e.item.entries)
  {
    var top := Extend(prefix, e.name);
    if top in Flat(top, e.item.entries) {
      FlatBelow(top, e.item.entries, top);
    }
  }

  lemma {:induction false} FlatBelow(prefix: bytes, entries: seq<Entry>, p: bytes)
    requires prefix != [] && WellListed(entries) && p in Flat(prefix, entries)
    ensures |p| > |prefix|
    decreases |entries|
  {
    var init, last := entries[..|entries| - 1], entries[|entries| - 1];
    WellListedInit(entries);
    if p in Below(prefix, last) {
      BelowUnder(prefix, last, p);
    } else {
      FlatBelow(prefix, init, p);
    }
  }

  /** The walk so far: the first `i` entries fit, and their paths are recorded. */
  ghost predicate Walked(sha256: bytes -> bytes, prefix: bytes, entries: seq<Entry>, i: nat,
                         expected: map<bytes, Wanted>, hashing: bool, before: set<bytes>, observed: set<bytes>)
    requires i <= |entries|
  {
    && Fits(sha256, Flat(prefix, entries[..i]), expected, hashing)
    && observed == before + Flat(prefix, entries[..i]).Keys
    && observed <= expected.Keys
  }

  /** One more entry fits exactly when all of its own paths do. */
  lemma WalkStep(sha256: bytes -> bytes, prefix: bytes, entries: seq<Entry>, i: nat,
                 expected: map<bytes, Wanted>, hashing: bool)
    requires WellListed(entries) && i < |entries| && Fits(sha256, Flat(prefix, entries[..i]), expected, hashing)
    ensures Flat(prefix, entries[..i + 1]) == Flat(prefix, entries[..i]) + Below(prefix, entries[i])
    ensures Flat(prefix, entries[..i]).Keys !! Below(prefix, entries[i]).Keys
    ensures Below(prefix, entries[i]).Keys <= Flat(prefix, entries).Keys
    ensures Fits(sha256, Flat(prefix, entries[..i + 1]), expected, hashing)
       <==> Fits(sha256, Below(prefix, entries[i]), expected, hashing)
    ensures !Fits(sha256, Below(prefix, entries[i]), expected, hashing) ==>
              !Fits(sha256, Flat(prefix, entries), expected, hashing)
  {
    var t := entries[..i + 1];
    assert t[..i] == entries[..i] && t[i] == entries[i];
    FlatPrefix(prefix, entries, i);
    FlatPrefix(prefix, entries, i + 1);
    FlatApart(prefix, entries[..i], entries[i]);
    hide Fits, Below, WellListed;
    FitsSum(sha256, Flat(prefix, entries[..i]), Below(prefix, entries[i]), expected, hashing);
    if Fits(sha256, Flat(prefix, entries), expected, hashing) {
      FitsWithin(sha256, Flat(prefix, t), Flat(prefix, entries), expected, hashing);
    }
  }

  lemma BelowFits(sha256: bytes -> bytes, prefix: bytes, e: Entry, expected: map<bytes, Wanted>, hashing: bool)
    requires NameOk(e.name) && (e.item.Directory? ==> WellListed(e.item.entries))
    ensures var p := Extend(prefix, e.name);
            && p in Below(prefix, e)
            && (Fits(sha256, Below(prefix, e), expected, hashing) <==>
                  p in expected && Matches(sha256, e.item, expected[p], hashing)
                  && (e.item.Directory? ==> Fits(sha256, Flat(p, e.item.entries), expected, hashing)))
            && Below(prefix, e).Keys == {p} + (if e.item.Directory? then Flat(p, e.item.entries).Keys else {})
            && (e.item.Directory? ==> p !in Flat(p, e.item.entries))
  {
    var p := Extend(prefix, e.name);
    hide Matches;
    if e.item.Directory? {
      OwnPath(prefix, e);
      FitsPlus(sha256, Flat(p, e.item.entries), p, e.item, expected, hashing);
    } else {
      FitsPlus(sha256, map[], p, e.item, expected, hashing);
    }
  }

  /** `walk`: the listing in the order the system gives it. It succeeds exactly
      when everything below the directory is expected and matches, and then has
      recorded every path once. */
  method Walk(sha256: bytes -> bytes, prefix: bytes, entries: seq<Entry>, expected: map<bytes, Wanted>,
              before: set<bytes>, hashing: bool)
    returns (r: Option<set<bytes>>)
    requires WellListed(entries) && before <= expected.Keys && before !! Flat(prefix, entries).Keys
    ensures r.Some? <==> Fits(sha256, Flat(prefix, entries), expected, hashing)
    ensures r.Some? ==> r.value == before + Flat(prefix, entries).Keys <= expected.Keys
    decreases entries
  {
    var observed := before;
    for i := 0 to |entries|
      invariant Walked(sha256, prefix, entries, i, expected, hashing, before, observed)
    {
      WalkStep(sha256, prefix, entries, i, expected, hashing);
      BelowFits(sha256, prefix, entries[i], expected, hashing);
      var more := Visit(sha256, prefix, entries[i], expected, observed, hashing);
      if more.None? {
        return None;
      }
      observed := more.value;
    }
    assert entries[..|entries|] == entries;
    r := Some(observed);
  }

  lemma MatchesKind(sha256: bytes -> bytes, item: Item, expected: map<bytes, Wanted>, p: bytes, hashing: bool)
    ensures p in expected && expected[p].WantDirectory? ==>
              (Matches(sha256, item, expected[p], hashing) <==> item.Directory? && item.mode == MODE_DIRECTORY)
    ensures p in expected && expected[p].WantFile? && item.Directory? ==> !Matches(sha256, item, expected[p], hashing)
  {
  }

  /** The loop body of `walk`, for one entry. */
  method Visit(sha256: bytes -> bytes, prefix: bytes, e: Entry, expected: map<bytes, Wanted>,
               before: set<bytes>, hashing: bool)
    returns (r: Option<set<bytes>>)
    requires NameOk(e.name) && (e.item.Directory? ==> WellListed(e.item.entries))
    requires before <= expected.Keys && before !! Below(prefix, e).Keys
    ensures r.Some? <==> Fits(sha256, Below(prefix, e), expected, hashing)
    ensures r.Some? ==> r.value == before + Below(prefix, e).Keys <= expected.Keys
    decreases e
  {
    BelowFits(sha256, prefix, e, expected, hashing);
    MatchesKind(sha256, e.item, expected, Extend(prefix, e.name), hashing);
    hide *;
    var p := Extend(prefix, e.name);
    if |before| >= |expected| {
      if p in expected {
        FewerSeen(before, expected.Keys, p);
      }
      return None;
    }
    if p !in expected || p in before {
      return None;
    }
    var observed := before + {p};
    match expected[p]
    case WantDirectory =>
      if !e.item.Directory? || e.item.mode != MODE_DIRECTORY {
        return None;
      }
      assert observed !! Flat(p, e.item.entries).Keys;
      r := Walk(sha256, p, e.item.entries, expected, observed, hashing);
      assert observed + Flat(p, e.item.entries).Keys == before + Below(prefix, e).Keys;
    case WantFile(size, mode, hash) =>
      if !Matches(sha256, e.item, expected[p], hashing) {
        return None;
      }
      r := Some(observed);
      assert observed == before + Below(prefix, e).Keys;
  }

  /** The tree is the inventory: no path missing, none extra, every one as recorded. */
  ghost predicate Exact(sha256: bytes -> bytes, flat: map<bytes, Item>, expected: map<bytes, Wanted>) {
    flat.Keys == expected.Keys && forall p <- flat :: Matches(sha256, flat[p], expected[p], true)
  }

  /** `scan`: the walk fits and as many paths were seen as are expected. */
  method Scan(sha256: bytes -> bytes, entries: seq<Entry>, expected: map<bytes, Wanted>, hashing: bool)
    returns (ok: bool)
    requires WellListed(entries)
    ensures ok <==> Flat([], entries).Keys == expected.Keys && Fits(sha256, Flat([], entries), expected, hashing)
    ensures hashing ==> (ok <==> Exact(sha256, Flat([], entries), expected))
  {
    hide WellListed, Flat, Matches;
    var observed := Walk(sha256, [], entries, expected, {}, hashing);
    if observed.None? {
      return false;
    }
    SubsetSize(observed.value, expected.Keys);
    ok := |observed.value| == |expected|;
  }
}
