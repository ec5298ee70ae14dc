/** Chain members and network documents, field by field. */
module NetworkRules {
  import opened Prelude
  import opened Lists
  import opened Network

  // src/config/network.rs, `canonical_hex`, `chain_members` and `validated_network`:
  // what is asked of each field of a document, and which field of a result comes
  // from which.

  /** Hexadecimal digits of either case behind 0x. */
  predicate HexId(text: bytes, digits: nat) {
    && |text| == digits + 2 && text[0] == 0x30 && text[1] == 0x78
    && forall i :: 2 <= i < |text| ==>
         0x30 <= text[i] <= 0x39 || 0x41 <= text[i] <= 0x46 || 0x61 <= text[i] <= 0x66
  }

  /** The same text with its capital letters in lower case. */
  predicate InLowerCase(text: bytes, lower: bytes) {
    && |lower| == |text|
    && forall i :: 0 <= i < |text| ==>
         lower[i] == if 0x41 <= text[i] <= 0x5A then text[i] + 0x20 else text[i]
  }

  predicate AllInLowerCase(texts: seq<bytes>, lowers: seq<bytes>) {
    |lowers| == |texts| && forall i :: 0 <= i < |texts| ==> InLowerCase(texts[i], lowers[i])
  }

  /** What is asked of one node on its own. */
  predicate FieldsFit(n: Node, hosts: Hosts) {
    && HexId(n.id, 64) && HexId(n.validator, 40) && hosts(n.host).Some? && n.port > 0
    && (n.permission == Ascii("NONE") || n.permission == Ascii("RELAY") || n.permission == Ascii("INGRESS"))
    && 1 <= |n.active| <= 16 && |n.revoked| <= 16
    && (forall pin <- n.active :: HexId(pin, 64)) && (forall pin <- n.revoked :: HexId(pin, 64))
  }

  /** `c` is `n` in canonical form, its pins as listed. */
  predicate CanonOf(n: Node, c: Node, hosts: Hosts) {
    && InLowerCase(n.id, c.id) && InLowerCase(n.validator, c.validator) && hosts(n.host) == Some(c.host)
    && c.port == n.port && c.permission == n.permission
    && AllInLowerCase(n.active, c.active) && AllInLowerCase(n.revoked, c.revoked)
  }

  predicate AllCanonOf(nodes: seq<Node>, cs: seq<Node>, hosts: Hosts) {
    |cs| == |nodes| && forall i :: 0 <= i < |nodes| ==> CanonOf(nodes[i], cs[i], hosts)
  }

  /** No two nodes share an id, a validator or an endpoint, and no pin is listed twice. */
  ghost predicate Distinct(cs: seq<Node>) {
    && (forall i, j :: 0 <= i < j < |cs| ==>
          cs[i].id != cs[j].id && cs[i].validator != cs[j].validator
          && (cs[i].host != cs[j].host || cs[i].port != cs[j].port))
    && forall pin: bytes :: multiset(Parts(cs, ListedPins))[pin] <= 1
  }

  function ListedPins(n: Node): seq<bytes> {
    n.active + n.revoked
  }

  lemma HexIs(text: bytes, digits: nat)
    ensures Canonical(text, digits).Some? <==> HexId(text, digits)
    ensures Canonical(text, digits).Some? ==> InLowerCase(text, Canonical(text, digits).value)
  {
    assert forall i :: 0 <= i < |text| ==> LowerText(text)[i] == LowerByte(text[i]);
  }

  lemma LowerIs(text: bytes, lower: bytes)
    ensures InLowerCase(text, lower) <==> lower == LowerText(text)
  {
    assert forall i :: 0 <= i < |text| ==> LowerText(text)[i] == LowerByte(text[i]);
  }

  lemma LowersAre(texts: seq<bytes>, lowers: seq<bytes>)
    ensures AllInLowerCase(texts, lowers) <==> lowers == Image(texts, LowerText)
  {
    hide InLowerCase;
    var image := Image(texts, LowerText);
    forall i | 0 <= i < |texts| && i < |lowers| ensures InLowerCase(texts[i], lowers[i]) <==> lowers[i] == image[i] {
      LowerIs(texts[i], lowers[i]);
    }
  }

  lemma PinsFit(pins: seq<bytes>)
    ensures PinsOk(pins) <==> forall pin <- pins :: HexId(pin, 64)
  {
    hide HexId, Canonical;
    forall i | 0 <= i < |pins| ensures Canonical(pins[i], 64).Some? <==> HexId(pins[i], 64) {
      HexIs(pins[i], 64);
    }
    if forall pin <- pins :: HexId(pin, 64) {
      forall i | 0 <= i < |pins| ensures Canonical(pins[i], 64).Some? {
        assert pins[i] in pins;
      }
    }
  }

  lemma FieldsAre(n: Node, hosts: Hosts)
    ensures NodeOk(n, hosts) <==> FieldsFit(n, hosts)
  {
    HexIs(n.id, 64);
    HexIs(n.validator, 40);
    PinsFit(n.active);
    PinsFit(n.revoked);
    hide HexId, Canonical, PinsOk, Ascii;
  }

  lemma CanonIs(n: Node, c: Node, hosts: Hosts)
    requires hosts(n.host).Some?
    ensures CanonOf(n, c, hosts) <==> c == Canon(n, hosts)
  {
    LowerIs(n.id, c.id);
    LowerIs(n.validator, c.validator);
    LowersAre(n.active, c.active);
    LowersAre(n.revoked, c.revoked);
    hide InLowerCase, AllInLowerCase, LowerText, Image;
  }

  lemma CanonsAre(nodes: seq<Node>, cs: seq<Node>, hosts: Hosts)
    requires forall i :: 0 <= i < |nodes| ==> hosts(nodes[i].host).Some?
    ensures AllCanonOf(nodes, cs, hosts) <==> cs == Canons(nodes, hosts)
  {
    hide CanonOf, Canon;
    forall i | 0 <= i < |nodes| && i < |cs| ensures CanonOf(nodes[i], cs[i], hosts) <==> cs[i] == Canon(nodes[i], hosts) {
      CanonIs(nodes[i], cs[i], hosts);
    }
  }

  lemma {:induction false} SameParts(cs: seq<Node>)
    ensures Parts(cs, ListedPins) == Parts(cs, Pins)
  {
    if cs != [] {
      SameParts(cs[..|cs| - 1]);
    }
  }

  lemma DistinctIs(cs: seq<Node>)
    ensures Apart(cs) <==> Distinct(cs)
  {
    SameParts(cs);
    IdsApart(cs);
    ValidatorsApart(cs);
    EndpointsApart(cs);
    hide Image, Parts;
  }

  lemma IdsApart(cs: seq<Node>)
    ensures Unique(Image(cs, Id)) <==> forall i, j :: 0 <= i < j < |cs| ==> cs[i].id != cs[j].id
  {
    UniqueApart(Image(cs, Id));
    var ids := Image(cs, Id);
    hide Unique;
    assert forall i :: 0 <= i < |cs| ==> ids[i] == cs[i].id;
  }

  lemma ValidatorsApart(cs: seq<Node>)
    ensures Unique(Image(cs, Validator)) <==> forall i, j :: 0 <= i < j < |cs| ==> cs[i].validator != cs[j].validator
  {
    UniqueApart(Image(cs, Validator));
    var validators := Image(cs, Validator);
    hide Unique;
    assert forall i :: 0 <= i < |cs| ==> validators[i] == cs[i].validator;
  }

  lemma EndpointsApart(cs: seq<Node>)
    ensures Unique(Image(cs, Endpoint)) <==>
            forall i, j :: 0 <= i < j < |cs| ==> cs[i].host != cs[j].host || cs[i].port != cs[j].port
  {
    UniqueApart(Image(cs, Endpoint));
    var endpoints := Image(cs, Endpoint);
    hide Unique;
    assert forall i :: 0 <= i < |cs| ==> endpoints[i] == (cs[i].host, cs[i].port);
  }

  /** The validators of these nodes are exactly the members. */
  ghost predicate ValidatorsAre(cs: seq<Node>, members: set<bytes>) {
    && (forall i :: 0 <= i < |cs| ==> cs[i].validator in members)
    && (forall m <- members :: exists i :: 0 <= i < |cs| && cs[i].validator == m)
  }

  lemma MembersAre(cs: seq<Node>, members: set<bytes>)
    ensures Elements(Image(cs, Validator)) == members <==> ValidatorsAre(cs, members)
  {
    var validators := Image(cs, Validator);
    assert forall i :: 0 <= i < |cs| ==> validators[i] == cs[i].validator;
    if ValidatorsAre(cs, members) {
      forall m | m in members ensures m in Elements(validators) {
        var i :| 0 <= i < |cs| && cs[i].validator == m;
        assert validators[i] == m;
      }
    }
  }

  /** An acceptable network document, with the canonical form of its nodes. */
  ghost predicate Acceptable(d: Document, members: set<bytes>, hosts: Hosts, cs: seq<Node>) {
    && d.schemaVersion == 1 && d.kind == Ascii("BXDL_QBFT_NETWORK") && 1 <= |d.nodes| <= 128
    && (forall n <- d.nodes :: FieldsFit(n, hosts)) && AllCanonOf(d.nodes, cs, hosts)
    && Distinct(cs) && ValidatorsAre(cs, members)
  }

  lemma AllFit(nodes: seq<Node>, hosts: Hosts)
    ensures AllOk(nodes, hosts) <==> forall n <- nodes :: FieldsFit(n, hosts)
  {
    hide NodeOk, FieldsFit;
    forall n ensures NodeOk(n, hosts) <==> FieldsFit(n, hosts) {
      FieldsAre(n, hosts);
    }
    if forall n <- nodes :: FieldsFit(n, hosts) {
      forall i | 0 <= i < |nodes| ensures NodeOk(nodes[i], hosts) {
        assert nodes[i] in nodes;
      }
    }
  }

  lemma FitHosts(nodes: seq<Node>, hosts: Hosts)
    requires AllOk(nodes, hosts)
    ensures forall i :: 0 <= i < |nodes| ==> hosts(nodes[i].host).Some?
  {
    hide Canonical, PinsOk, PermissionOk;
  }

  /** Acceptance by literal rules, and the one canonical form. */
  lemma NetworkExact(d: Document, members: set<bytes>, hosts: Hosts)
    ensures NetworkOk(d, members, hosts) <==> exists cs :: Acceptable(d, members, hosts, cs)
    ensures forall cs :: Acceptable(d, members, hosts, cs) ==> cs == Canons(d.nodes, hosts)
  {
    var canons := Canons(d.nodes, hosts);
    AllFit(d.nodes, hosts);
    hide AllOk, FieldsFit, Apart, Distinct, Elements, ValidatorsAre, AllCanonOf, Ascii, Canons;
    if AllOk(d.nodes, hosts) {
      FitHosts(d.nodes, hosts);
      CanonsAre(d.nodes, canons, hosts);
      DistinctIs(canons);
      MembersAre(canons, members);
    }
    forall cs | Acceptable(d, members, hosts, cs) ensures cs == canons {
      FitHosts(d.nodes, hosts);
      CanonsAre(d.nodes, cs, hosts);
    }
    if NetworkOk(d, members, hosts) {
      assert Acceptable(d, members, hosts, canons);
    }
  }

  /** The same node with its pins in order. */
  ghost predicate SettledOf(c: Node, r: Node) {
    && r.id == c.id && r.validator == c.validator && r.host == c.host && r.port == c.port
    && r.permission == c.permission
    && multiset(r.active) == multiset(c.active) && multiset(r.revoked) == multiset(c.revoked)
    && Ordered(r.active) && Ordered(r.revoked)
  }

  ghost predicate FromSome(cs: seq<Node>, x: Node) {
    exists i :: 0 <= i < |cs| && SettledOf(cs[i], x)
  }

  ghost predicate InSome(c: Node, r: seq<Node>) {
    exists k :: 0 <= k < |r| && SettledOf(c, r[k])
  }

  ghost predicate Ordered(pins: seq<bytes>) {
    forall i, j :: 0 <= i < j < |pins| ==> Before(pins[i], pins[j])
  }

  /** Byte by byte, the first difference decides, and a prefix comes first. */
  predicate Before(a: bytes, b: bytes) {
    exists k :: 0 <= k <= |a| && k < |b| && a[..k] == b[..k] && (k == |a| || a[k] < b[k])
  }

  lemma SameStart(a: bytes, b: bytes, k: int)
    ensures 0 < k <= |a| && k <= |b| && a[..k] == b[..k] ==> a[0] == b[0]
  {
    if 0 < k <= |a| && k <= |b| && a[..k] == b[..k] {
      assert a[..k][0] == b[..k][0];
    }
  }

  lemma {:induction false} BelowIs(a: bytes, b: bytes)
    ensures Below(a, b) <==> Before(a, b)
    decreases |a|
  {
    if a == [] || b == [] || a[0] != b[0] {
      if b != [] && Below(a, b) {
        assert a[..0] == b[..0];
      }
      if k :| 0 <= k <= |a| && k < |b| && a[..k] == b[..k] && (k == |a| || a[k] < b[k]) {
        SameStart(a, b, k);
      }
    } else {
      BelowIs(a[1..], b[1..]);
      if k :| 0 <= k <= |a| && k < |b| && a[..k] == b[..k] && (k == |a| || a[k] < b[k]) {
        assert k > 0;
        assert a[1..][..k - 1] == a[..k][1..] == b[..k][1..] == b[1..][..k - 1];
      }
      if m :| 0 <= m <= |a[1..]| && m < |b[1..]| && a[1..][..m] == b[1..][..m] && (m == |a[1..]| || a[1..][m] < b[1..][m]) {
        assert a[..m + 1] == [a[0]] + a[1..][..m] && b[..m + 1] == [b[0]] + b[1..][..m];
      }
    }
  }

  lemma PinsSettle(pins: seq<bytes>)
    requires Unique(pins)
    ensures multiset(Sorted(pins, Self)) == multiset(pins) && Ordered(Sorted(pins, Self))
  {
    SortedBag(pins, Self);
    UniqueApart(pins);
    SortedRises(pins, Self);
    var sorted := Sorted(pins, Self);
    forall i, j | 0 <= i < j < |sorted| ensures Before(sorted[i], sorted[j]) {
      BelowIs(sorted[i], sorted[j]);
    }
    hide Unique, Sorted;
  }

  lemma NodeSettles(c: Node)
    requires Unique(c.active) && Unique(c.revoked)
    ensures SettledOf(c, Settle(c))
  {
    PinsSettle(c.active);
    PinsSettle(c.revoked);
    hide Unique, Sorted, Ordered;
  }

  lemma {:induction false} PinsOnce(cs: seq<Node>, i: nat)
    requires i < |cs| && Unique(Parts(cs, Pins))
    ensures Unique(cs[i].active) && Unique(cs[i].revoked)
    decreases |cs|
  {
    var init, last := cs[..|cs| - 1], cs[|cs| - 1];
    var before, own := Parts(init, Pins), Pins(last);
    assert cs == init + [last];
    assert Parts(cs, Pins) == before + own;
    assert multiset(before + own) == multiset(before) + multiset(own);
    if i == |cs| - 1 {
      assert multiset(own) == multiset(last.active) + multiset(last.revoked);
      forall x ensures multiset(last.active)[x] <= 1 && multiset(last.revoked)[x] <= 1 {
        assert multiset(before + own)[x] <= 1;
      }
    } else {
      forall x ensures multiset(before)[x] <= 1 {
        assert multiset(before + own)[x] <= 1;
      }
      PinsOnce(init, i);
    }
  }

  /** The result: rising by id, each node the canonical form of one of the document,
      field by field, with its pins in order, and every node among them. */
  lemma ResultExact(d: Document, members: set<bytes>, hosts: Hosts, cs: seq<Node>)
    requires Acceptable(d, members, hosts, cs)
    ensures var r := Settled(Canons(d.nodes, hosts));
            && |r| == |cs| && (forall i, j :: 0 <= i < j < |r| ==> Before(r[i].id, r[j].id))
            && (forall k :: 0 <= k < |r| ==> FromSome(cs, r[k]))
            && (forall i :: 0 <= i < |cs| ==> InSome(cs[i], r))
  {
    hide *;
    NetworkExact(d, members, hosts);
    ResultSound(d, members, hosts);
    NetworkApart(d, members, hosts);
    SettledLike(cs);
    RisingIds(Settled(cs));
    SameMembers(Settled(cs), Image(cs, Settle));
    LikeBoth(cs, Image(cs, Settle), Settled(cs));
  }

  lemma NetworkApart(d: Document, members: set<bytes>, hosts: Hosts)
    requires NetworkOk(d, members, hosts)
    ensures Apart(Canons(d.nodes, hosts))
  {
    hide Apart, AllOk, Elements, Canons;
  }

  lemma SettledLike(cs: seq<Node>)
    requires Apart(cs)
    ensures |Image(cs, Settle)| == |cs| && forall i :: 0 <= i < |cs| ==> SettledOf(cs[i], Image(cs, Settle)[i])
  {
    hide Unique, SettledOf, Parts, Image, Settle;
    forall i | 0 <= i < |cs| ensures SettledOf(cs[i], Image(cs, Settle)[i]) {
      PinsOnce(cs, i);
      NodeSettles(cs[i]);
    }
  }

  lemma LikeBoth(cs: seq<Node>, settled: seq<Node>, r: seq<Node>)
    requires |settled| == |cs| == |r| && (forall x :: x in r <==> x in settled)
    requires forall i :: 0 <= i < |cs| ==> SettledOf(cs[i], settled[i])
    ensures forall k :: 0 <= k < |r| ==> FromSome(cs, r[k])
    ensures forall i :: 0 <= i < |cs| ==> InSome(cs[i], r)
  {
    hide SettledOf;
    forall k | 0 <= k < |r| ensures FromSome(cs, r[k]) {
      assert r[k] in settled;
      var i :| 0 <= i < |settled| && settled[i] == r[k];
      assert SettledOf(cs[i], r[k]);
    }
    forall i | 0 <= i < |cs| ensures InSome(cs[i], r) {
      assert settled[i] in r;
      var k :| 0 <= k < |r| && r[k] == settled[i];
      assert SettledOf(cs[i], r[k]);
    }
  }

  lemma RisingIds(r: seq<Node>)
    requires Rising(r, Id)
    ensures forall i, j :: 0 <= i < j < |r| ==> Before(r[i].id, r[j].id)
  {
    forall i, j | 0 <= i < j < |r| ensures Before(r[i].id, r[j].id) {
      BelowIs(r[i].id, r[j].id);
    }
  }

  lemma SameMembers(a: seq<Node>, b: seq<Node>)
    requires multiset(a) == multiset(b)
    ensures (forall x :: x in a <==> x in b) && |a| == |b|
  {
    assert forall x :: x in a <==> x in multiset(a);
    assert forall x :: x in b <==> x in multiset(b);
    assert |multiset(a)| == |a| && |multiset(b)| == |b|;
  }

  // ------------------------------------------------------------ chain members

  /** A placeholder starts somewhere in the text. */
  predicate Placeholder(s: bytes) {
    exists i :: 0 <= i < |s| - 1 && s[i] == 0x24 && s[i + 1] == 0x7B
  }

  function AddressKey(i: nat): bytes {
    Ascii("nigo.protocol.consensus.qbft.validators") + [0x5B] + DecimalText(i) + [0x5D]
  }

  /** The chain configuration is QBFT, flat and without placeholders, and its keys
      under the validators' name are those of these addresses, written as they may. */
  ghost predicate NamesMembers(values: map<bytes, Value>, addresses: seq<bytes>) {
    && 1 <= |addresses| <= 128 && (forall i, j :: 0 <= i < j < |addresses| ==> addresses[i] != addresses[j])
    && Ascii("nigo.protocol.consensus.protocol") in values
    && values[Ascii("nigo.protocol.consensus.protocol")] == Text(Ascii("QBFT"))
    && (forall key <- values :: !values[key].Nested? && (values[key].Text? ==> !Placeholder(values[key].text)))
    && (forall key <- values :: HasPrefix(key, Ascii("nigo.protocol.consensus.qbft.validators")) ==>
          exists i: nat :: i < |addresses| && key == AddressKey(i))
    && (forall i :: 0 <= i < |addresses| ==>
          AddressKey(i) in values && values[AddressKey(i)].Text? && HexId(values[AddressKey(i)].text, 40)
          && InLowerCase(values[AddressKey(i)].text, addresses[i]))
  }

  lemma {:induction false} PlaceholderIs(s: bytes)
    ensures Contains(s, PLACEHOLDER) <==> Placeholder(s)
  {
    if s != [] {
      PlaceholderIs(s[1..]);
      if |s| >= 2 {
        assert s[..2] == [s[0], s[1]];
      }
      if i :| 0 <= i < |s| - 1 && s[i] == 0x24 && s[i + 1] == 0x7B {
        assert i > 0 ==> s[1..][i - 1] == 0x24 && s[1..][i] == 0x7B;
      }
      if i :| 0 <= i < |s[1..]| - 1 && s[1..][i] == 0x24 && s[1..][i + 1] == 0x7B {
        assert s[i + 1] == 0x24 && s[i + 2] == 0x7B;
      }
    }
  }

  lemma AddressIs(values: map<bytes, Value>, i: nat, address: bytes)
    ensures AddressAt(values, i) == Some(address) <==>
            && AddressKey(i) in values && values[AddressKey(i)].Text? && HexId(values[AddressKey(i)].text, 40)
            && InLowerCase(values[AddressKey(i)].text, address)
  {
    KeyIs(i);
    var key := AddressKey(i);
    if key in values && values[key].Text? {
      HexIs(values[key].text, 40);
      LowerIs(values[key].text, address);
      CanonicalIs(values[key].text, 40);
    }
    hide Canonical, HexId, InLowerCase, LowerText, AddressKey, MemberKey;
  }

  lemma CanonicalIs(text: bytes, digits: nat)
    ensures Canonical(text, digits).Some? ==> Canonical(text, digits).value == LowerText(text)
  {
  }

  lemma KeyIs(i: nat)
    ensures AddressKey(i) == MemberKey(i)
  {
    hide Ascii;
    assert MEMBERS == Ascii("nigo.protocol.consensus.qbft.validators");
  }

  /** The configurations that name members, by literal rules. */
  lemma NamesExact(values: map<bytes, Value>, addresses: seq<bytes>)
    ensures Names(values, addresses) <==> NamesMembers(values, addresses)
  {
    UniqueApart(addresses);
    hide Contains, Placeholder, AddressAt, HexId, InLowerCase, AddressKey, MemberKey, Unique, Ascii;
    forall key | key in values
      ensures PlainValue(values[key]) <==>
              !values[key].Nested? && (values[key].Text? ==> !Placeholder(values[key].text))
    {
      if values[key].Text? {
        PlaceholderIs(values[key].text);
      }
    }
    forall i: nat ensures AddressKey(i) == MemberKey(i) {
      KeyIs(i);
    }
    forall i: nat | i < |addresses|
      ensures AddressAt(values, i) == Some(addresses[i]) <==>
              && AddressKey(i) in values && values[AddressKey(i)].Text? && HexId(values[AddressKey(i)].text, 40)
              && InLowerCase(values[AddressKey(i)].text, addresses[i])
    {
      AddressIs(values, i, addresses[i]);
    }
    assert MEMBERS == Ascii("nigo.protocol.consensus.qbft.validators") && QBFT == Ascii("QBFT");
    assert PROTOCOL == Ascii("nigo.protocol.consensus.protocol");
  }
}
