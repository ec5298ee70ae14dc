/** Canonical public network documents (src/config/network.rs, `chain_members` and
    `validated_network`). Canonicalizing a host name is a parameter. */
module Network {
  import opened Prelude
  import opened Lists

  const MEMBERS: bytes := Ascii("nigo.protocol.consensus.qbft.validators")
  const PROTOCOL: bytes := Ascii("nigo.protocol.consensus.protocol")
  const QBFT: bytes := Ascii("QBFT")
  const PLACEHOLDER: bytes := [0x24, 0x7B]
  const MAX_NODES: nat := 128
  const MAX_PINS: nat := 16

  predicate HexDigit(b: byte) {
    IsDigit(b) || 0x41 <= b <= 0x46 || 0x61 <= b <= 0x66
  }

  function LowerByte(b: byte): byte {
    if 0x41 <= b <= 0x5A then b + 0x20 else b
  }

  function LowerText(s: bytes): (r: bytes)
    ensures |r| == |s|
  {
    seq(|s|, i requires 0 <= i < |s| => LowerByte(s[i]))
  }

  /** `canonical_hex`: lower-case hexadecimal behind 0x. */
  function Canonical(text: bytes, count: nat): Option<bytes> {
    if |text| == count + 2 && text[0] == 0x30 && text[1] == 0x78
       && forall i :: 2 <= i < |text| ==> HexDigit(text[i])
    then Some(LowerText(text)) else None
  }

  // ------------------------------------------------------------ chain members

  datatype Value = Text(text: bytes) | Flag | Number | Nested

  predicate Contains(s: bytes, part: bytes) {
    HasPrefix(s, part) || (s != [] && Contains(s[1..], part))
  }

  predicate PlainValue(v: Value) {
    !v.Nested? && (v.Text? ==> !Contains(v.text, PLACEHOLDER))
  }

  function MemberKey(i: nat): bytes {
    MEMBERS + [0x5B] + DecimalText(i) + [0x5D]
  }

  /** The index in a key that starts like a member's, if it is well written. */
  function MemberIndex(key: bytes): Option<nat>
    requires HasPrefix(key, MEMBERS)
  {
    var suffix := key[|MEMBERS|..];
    if |suffix| < 2 || suffix[0] != 0x5B || suffix[|suffix| - 1] != 0x5D then None
    else
      var index := suffix[1..|suffix| - 1];
      if !AllDigits(index) || DecimalText(DecimalValue(index)) != index || DecimalValue(index) >= MAX_NODES then None
      else Some(DecimalValue(index))
  }

  lemma MemberKeyReads(i: nat)
    ensures HasPrefix(MemberKey(i), MEMBERS)
    ensures MemberIndex(MemberKey(i)) == if i < MAX_NODES then Some(i) else None
  {
    hide MEMBERS;
    var key := MemberKey(i);
    DecimalDigits(i);
    assert key[..|MEMBERS|] == MEMBERS;
    assert key[|MEMBERS|..] == [0x5B] + DecimalText(i) + [0x5D];
    assert key[|MEMBERS|..][1..|key| - |MEMBERS| - 1] == DecimalText(i);
  }

  lemma MemberIndexShape(key: bytes)
    requires HasPrefix(key, MEMBERS) && MemberIndex(key).Some?
    ensures MemberIndex(key).value < MAX_NODES && key == MemberKey(MemberIndex(key).value)
  {
    hide MEMBERS;
    var suffix := key[|MEMBERS|..];
    assert key == MEMBERS + suffix;
    assert suffix == [0x5B] + suffix[1..|suffix| - 1] + [0x5D];
  }

  lemma MemberIndexExact(key: bytes, i: nat)
    requires HasPrefix(key, MEMBERS)
    ensures MemberIndex(key) == Some(i) <==> i < MAX_NODES && key == MemberKey(i)
  {
    if MemberIndex(key).Some? {
      MemberIndexShape(key);
    }
    MemberKeyReads(i);
    hide MEMBERS, MemberIndex, MemberKey;
  }

  /** The chain configuration names exactly these validators, in this order. */
  ghost predicate Names(values: map<bytes, Value>, addresses: seq<bytes>) {
    && 1 <= |addresses| <= MAX_NODES && Unique(addresses)
    && PROTOCOL in values && values[PROTOCOL] == Text(QBFT)
    && (forall key <- values :: PlainValue(values[key]))
    && (forall key <- values :: HasPrefix(key, MEMBERS) ==> exists i: nat :: i < |addresses| && key == MemberKey(i))
    && (forall i :: 0 <= i < |addresses| ==> AddressAt(values, i) == Some(addresses[i]))
  }

  function AddressAt(values: map<bytes, Value>, i: nat): Option<bytes> {
    var key := MemberKey(i);
    if key in values && values[key].Text? then Canonical(values[key].text, 40) else None
  }

  ghost function Elements(s: seq<bytes>): set<bytes> {
    set x | x in s
  }

  /** What the loop has found among the keys seen so far. */
  ghost predicate Gathered(values: map<bytes, Value>, seen: set<bytes>, members: map<nat, bytes>) {
    && (forall key <- seen :: key in values && PlainValue(values[key]))
    && (forall key <- seen :: HasPrefix(key, MEMBERS) ==>
          MemberIndex(key).Some? && MemberIndex(key).value in members)
    && (forall i <- members :: i < MAX_NODES && MemberKey(i) in seen && AddressAt(values, i) == Some(members[i]))
  }

  lemma GatheredStep(values: map<bytes, Value>, seen: set<bytes>, members: map<nat, bytes>, key: bytes, i: nat)
    requires Gathered(values, seen, members) && key in values && PlainValue(values[key])
    requires HasPrefix(key, MEMBERS) && MemberIndex(key) == Some(i) && AddressAt(values, i).Some?
    ensures Gathered(values, seen + {key}, members[i := AddressAt(values, i).value])
  {
    MemberIndexExact(key, i);
    hide PlainValue, MemberIndex, AddressAt, MEMBERS;
  }

  method ChainMembers(values: map<bytes, Value>) returns (r: Option<set<bytes>>)
    ensures r.Some? <==> exists addresses :: Names(values, addresses)
    ensures r.Some? ==> exists addresses :: Names(values, addresses) && r.value == Elements(addresses)
  {
    hide PlainValue, MemberIndex, AddressAt, MEMBERS, PROTOCOL, Canonical;
    if PROTOCOL !in values || values[PROTOCOL] != Text(QBFT) {
      return None;
    }
    var members: map<nat, bytes> := map[];
    var keys := values.Keys;
    while keys != {}
      invariant keys <= values.Keys && Gathered(values, values.Keys - keys, members)
    {
      var key :| key in keys;
      if !PlainValue(values[key]) {
        return None;
      }
      if HasPrefix(key, MEMBERS) {
        var index := MemberIndex(key);
        forall addresses | Names(values, addresses)
          ensures MemberIndex(key).Some? && AddressAt(values, MemberIndex(key).value).Some?
        {
          NamedKey(values, addresses, key);
        }
        if index.None? || AddressAt(values, index.value).None? {
          return None;
        }
        GatheredStep(values, values.Keys - keys, members, key, index.value);
        members := members[index.value := AddressAt(values, index.value).value];
      }
      assert values.Keys - (keys - {key}) == values.Keys - keys + {key};
      keys := keys - {key};
    }
    assert values.Keys - keys == values.Keys;
    r := Collect(values, members);
  }

  lemma NamedKey(values: map<bytes, Value>, addresses: seq<bytes>, key: bytes)
    requires Names(values, addresses) && key in values && HasPrefix(key, MEMBERS)
    ensures MemberIndex(key).Some? && MemberIndex(key).value < |addresses|
    ensures AddressAt(values, MemberIndex(key).value).Some?
  {
    hide MEMBERS, MemberIndex, AddressAt, PlainValue, Unique;
    var i: nat :| i < |addresses| && key == MemberKey(i);
    MemberIndexExact(key, i);
  }

  function Range(n: nat): (r: set<nat>)
    ensures |r| == n && forall x: nat :: x in r <==> x < n
  {
    if n == 0 then {} else Range(n - 1) + {n - 1}
  }

  lemma RangeStarts()
    ensures Range(0) == {}
  {
  }

  lemma RangeNext(n: nat)
    ensures Range(n + 1) == Range(n) + {n}
  {
  }

  lemma {:induction false} SubsetSize<T>(a: set<T>, b: set<T>)
    requires a <= b && |a| == |b|
    ensures a == b
    decreases |a|
  {
    if a == {} {
      assert |b| == 0;
    } else {
      var x :| x in a;
      SubsetSize(a - {x}, b - {x});
      assert a == a - {x} + {x} && b == b - {x} + {x};
    }
  }

  lemma ElementsPlus(s: seq<bytes>, x: bytes)
    ensures Elements(s + [x]) == Elements(s) + {x}
  {
  }

  /** A list has as many elements as entries exactly when none repeats. */
  lemma {:induction false} ElementsSize(s: seq<bytes>)
    ensures |Elements(s)| <= |s| && (|Elements(s)| == |s| <==> Unique(s))
    decreases |s|
  {
    if s == [] {
      assert Elements(s) == {};
    } else {
      var init, last := s[..|s| - 1], s[|s| - 1];
      assert s == init + [last];
      ElementsSize(init);
      UniqueStep(init, last);
      ElementsPlus(init, last);
      hide Unique;
    }
  }

  lemma GatheredNamed(values: map<bytes, Value>, members: map<nat, bytes>, addresses: seq<bytes>, i: nat)
    requires Gathered(values, values.Keys, members) && Names(values, addresses) && i in members
    ensures i < |addresses|
  {
    hide MEMBERS, MemberIndex, PlainValue, Unique, AddressAt, MemberKey;
    MemberKeyReads(i);
    NamedKey(values, addresses, MemberKey(i));
  }

  lemma NamedGathered(values: map<bytes, Value>, members: map<nat, bytes>, addresses: seq<bytes>, i: nat)
    requires Gathered(values, values.Keys, members) && Names(values, addresses) && i < |addresses|
    ensures i in members && members[i] == addresses[i]
  {
    MemberKeyReads(i);
    assert AddressAt(values, i) == Some(addresses[i]);
    assert MemberKey(i) in values;
    hide MEMBERS, MemberIndex, PlainValue, Unique, AddressAt, MemberKey;
  }

  /** Any list that the configuration names is what the loop gathers. */
  lemma NamedMembers(values: map<bytes, Value>, members: map<nat, bytes>, addresses: seq<bytes>)
    requires Gathered(values, values.Keys, members) && Names(values, addresses)
    ensures members.Keys == Range(|addresses|) && |members| == |addresses|
    ensures forall i :: 0 <= i < |addresses| ==> members[i] == addresses[i]
  {
    hide *;
    forall i | i in members ensures i < |addresses| {
      GatheredNamed(values, members, addresses, i);
    }
    forall i: nat | i < |addresses| ensures i in members && members[i] == addresses[i] {
      NamedGathered(values, members, addresses, i);
    }
    assert members.Keys == Range(|addresses|);
  }

  lemma MemberListed(values: map<bytes, Value>, members: map<nat, bytes>, n: nat, key: bytes)
    requires Gathered(values, values.Keys, members) && members.Keys == Range(n)
    requires key in values && HasPrefix(key, MEMBERS)
    ensures exists i: nat :: i < n && key == MemberKey(i)
  {
    hide MEMBERS, MemberIndex, PlainValue, AddressAt, Range;
    MemberIndexExact(key, MemberIndex(key).value);
  }

  lemma MemberAddress(values: map<bytes, Value>, members: map<nat, bytes>, n: nat, i: nat)
    requires Gathered(values, values.Keys, members) && members.Keys == Range(n) && i < n <= |members|
    ensures i in members && AddressAt(values, i) == Some(members[i])
  {
    hide MEMBERS, MemberIndex, PlainValue, AddressAt, Range;
  }

  lemma MembersPlain(values: map<bytes, Value>, members: map<nat, bytes>, n: nat)
    requires Gathered(values, values.Keys, members) && members.Keys == Range(n) && n > 0
    ensures n <= MAX_NODES && forall key <- values :: PlainValue(values[key])
  {
    hide MEMBERS, MemberIndex, PlainValue, AddressAt, Range;
    assert n - 1 in members;
  }

  /** Contiguous and distinct members make such a list. */
  lemma MembersName(values: map<bytes, Value>, members: map<nat, bytes>, addresses: seq<bytes>)
    requires Gathered(values, values.Keys, members) && PROTOCOL in values && values[PROTOCOL] == Text(QBFT)
    requires members.Keys == Range(|addresses|) && addresses != [] && Unique(addresses)
    requires forall i :: 0 <= i < |addresses| ==> members[i] == addresses[i]
    ensures Names(values, addresses)
  {
    hide MEMBERS, MemberIndex, PlainValue, Unique, AddressAt, PROTOCOL, Range, Gathered, HasPrefix, MemberKey;
    MembersPlain(values, members, |addresses|);
    forall key | key in values && HasPrefix(key, MEMBERS)
      ensures exists i: nat :: i < |addresses| && key == MemberKey(i)
    {
      MemberListed(values, members, |addresses|, key);
    }
    assert |members| == |Range(|addresses|)|;
    forall i: nat | i < |addresses| ensures AddressAt(values, i) == Some(addresses[i]) {
      MemberAddress(values, members, |addresses|, i);
    }
  }

  /** The checks after the loop: contiguous from zero, and no address twice. */
  method Collect(values: map<bytes, Value>, members: map<nat, bytes>) returns (r: Option<set<bytes>>)
    requires Gathered(values, values.Keys, members) && PROTOCOL in values && values[PROTOCOL] == Text(QBFT)
    ensures r.Some? <==> exists addresses :: Names(values, addresses)
    ensures r.Some? ==> exists addresses :: Names(values, addresses) && r.value == Elements(addresses)
  {
    hide Gathered, Names, PROTOCOL, Unique, Elements, Range;
    forall addresses | Names(values, addresses)
      ensures members.Keys == Range(|addresses|) && |members| == |addresses| && addresses != []
      ensures forall i :: 0 <= i < |addresses| ==> members[i] == addresses[i]
      ensures Unique(addresses)
    {
      NamedMembers(values, members, addresses);
      NamesUnique(values, addresses);
    }
    var addresses := Contiguous(members);
    if addresses.None? || addresses.value == [] {
      return None;
    }
    var unique := Distinct(addresses.value);
    forall other | Names(values, other) ensures other == addresses.value {
    }
    if |unique| != |members| {
      return None;
    }
    MembersName(values, members, addresses.value);
    r := Some(unique);
  }

  /** The members in order, if their indices run from zero without a gap. */
  method Contiguous(members: map<nat, bytes>) returns (r: Option<seq<bytes>>)
    ensures r.Some? <==> members.Keys == Range(|members|)
    ensures r.Some? ==> |r.value| == |members| && forall i :: 0 <= i < |members| ==> r.value[i] == members[i]
  {
    hide Range;
    var addresses: seq<bytes> := [];
    RangeStarts();
    for i: nat := 0 to |members|
      invariant |addresses| == i && Range(i) <= members.Keys
      invariant forall k :: 0 <= k < i ==> addresses[k] == members[k]
    {
      if i !in members {
        assert i in Range(|members|);
        return None;
      }
      RangeNext(i);
      addresses := addresses + [members[i]];
    }
    SubsetSize(Range(|members|), members.Keys);
    r := Some(addresses);
  }

  method Distinct(addresses: seq<bytes>) returns (unique: set<bytes>)
    ensures unique == Elements(addresses) && (|unique| == |addresses| <==> Unique(addresses))
  {
    hide Unique;
    unique := {};
    for i := 0 to |addresses|
      invariant unique == Elements(addresses[..i])
    {
      assert addresses[..i + 1] == addresses[..i] + [addresses[i]];
      unique := unique + {addresses[i]};
    }
    assert addresses[..|addresses|] == addresses;
    ElementsSize(addresses);
  }

  lemma NamesUnique(values: map<bytes, Value>, addresses: seq<bytes>)
    requires Names(values, addresses)
    ensures Unique(addresses) && addresses != []
  {
  }

  // ---------------------------------------------------------------- the nodes

  datatype Node = Node(
    id: bytes, validator: bytes, host: bytes, port: nat, permission: bytes, active: seq<bytes>, revoked: seq<bytes>)

  datatype Document = Document(schemaVersion: nat, kind: bytes, nodes: seq<Node>)

  /** How host names are canonicalized, if they are valid. */
  type Hosts = bytes -> Option<bytes>

  predicate PermissionOk(p: bytes) {
    p == Ascii("NONE") || p == Ascii("RELAY") || p == Ascii("INGRESS")
  }

  predicate PinsOk(pins: seq<bytes>) {
    forall i :: 0 <= i < |pins| ==> Canonical(pins[i], 64).Some?
  }

  /** A node that the checks on its own fields let pass. */
  predicate NodeOk(n: Node, hosts: Hosts) {
    && Canonical(n.id, 64).Some? && Canonical(n.validator, 40).Some? && hosts(n.host).Some?
    && n.port != 0 && PermissionOk(n.permission)
    && 1 <= |n.active| <= MAX_PINS && |n.revoked| <= MAX_PINS && PinsOk(n.active) && PinsOk(n.revoked)
  }

  /** The node with its fields in canonical form, its pins as listed. */
  function Canon(n: Node, hosts: Hosts): Node {
    Node(LowerText(n.id), LowerText(n.validator), if hosts(n.host).Some? then hosts(n.host).value else n.host,
         n.port, n.permission, Image(n.active, LowerText), Image(n.revoked, LowerText))
  }

  function CanonWith(hosts: Hosts): Node -> Node {
    (n: Node) => Canon(n, hosts)
  }

  function Self(pin: bytes): bytes {
    pin
  }

  /** The node with its pins in order. */
  function Settle(n: Node): Node {
    n.(active := Sorted(n.active, Self), revoked := Sorted(n.revoked, Self))
  }

  function Id(n: Node): bytes {
    n.id
  }

  function Validator(n: Node): bytes {
    n.validator
  }

  function Endpoint(n: Node): (bytes, nat) {
    (n.host, n.port)
  }

  function Pins(n: Node): seq<bytes> {
    n.active + n.revoked
  }

  /** Nothing that must be unique occurs twice, among all nodes. */
  ghost predicate Apart(cs: seq<Node>) {
    Unique(Image(cs, Id)) && Unique(Image(cs, Validator)) && Unique(Image(cs, Endpoint)) && Unique(Parts(cs, Pins))
  }

  predicate HeaderFits(d: Document) {
    d.schemaVersion == 1 && d.kind == Ascii("BXDL_QBFT_NETWORK") && 1 <= |d.nodes| <= MAX_NODES
  }

  predicate AllOk(nodes: seq<Node>, hosts: Hosts) {
    forall i :: 0 <= i < |nodes| ==> NodeOk(nodes[i], hosts)
  }

  function Canons(nodes: seq<Node>, hosts: Hosts): (cs: seq<Node>)
    ensures |cs| == |nodes| && forall i :: 0 <= i < |nodes| ==> cs[i] == Canon(nodes[i], hosts)
  {
    Image(nodes, CanonWith(hosts))
  }

  /** An acceptable network for these chain members: no mention of any order. */
  ghost predicate NetworkOk(d: Document, members: set<bytes>, hosts: Hosts) {
    && HeaderFits(d) && AllOk(d.nodes, hosts) && Apart(Canons(d.nodes, hosts))
    && Elements(Image(Canons(d.nodes, hosts), Validator)) == members
  }

  /** The canonical network: nodes by id, and their pins, in order. */
  function Settled(cs: seq<Node>): seq<Node> {
    Sorted(Image(cs, Settle), Id)
  }

  lemma ImagePlus<T, U>(s: seq<T>, x: T, f: T -> U)
    ensures Image(s + [x], f) == Image(s, f) + [f(x)]
  {
    assert (s + [x])[..|s|] == s;
  }

  lemma ImagePrefix<T, U>(s: seq<T>, n: nat, f: T -> U)
    requires n <= |s|
    ensures Image(s[..n], f) == Image(s, f)[..n]
  {
  }

  lemma {:induction false} PartsPrefix(cs: seq<Node>, n: nat)
    requires n <= |cs|
    ensures |Parts(cs[..n], Pins)| <= |Parts(cs, Pins)|
    ensures Parts(cs[..n], Pins) == Parts(cs, Pins)[..|Parts(cs[..n], Pins)|]
    decreases |cs|
  {
    if n == |cs| {
      assert cs[..n] == cs;
    } else {
      var init := cs[..|cs| - 1];
      assert init[..n] == cs[..n];
      PartsPrefix(init, n);
    }
  }

  lemma ApartPrefix(cs: seq<Node>, n: nat)
    requires n <= |cs| && Apart(cs)
    ensures Apart(cs[..n])
  {
    hide Unique;
    ImagePrefix(cs, n, Id);
    ImagePrefix(cs, n, Validator);
    ImagePrefix(cs, n, Endpoint);
    PartsPrefix(cs, n);
    UniquePrefix(Image(cs, Id), n);
    UniquePrefix(Image(cs, Validator), n);
    UniquePrefix(Image(cs, Endpoint), n);
    UniquePrefix(Parts(cs, Pins), |Parts(cs[..n], Pins)|);
  }

  /** One more node: what the four sets decide. */
  lemma ApartPlus(cs: seq<Node>, c: Node)
    requires Apart(cs)
    ensures Apart(cs + [c]) <==>
              c.id !in Image(cs, Id) && c.validator !in Image(cs, Validator) && Endpoint(c) !in Image(cs, Endpoint)
              && Unique(Parts(cs, Pins) + Pins(c))
  {
    ImagePlus(cs, c, Id);
    ImagePlus(cs, c, Validator);
    ImagePlus(cs, c, Endpoint);
    PartsPlus(cs, c, Pins);
    UniqueStep(Image(cs, Id), c.id);
    UniqueStep(Image(cs, Validator), c.validator);
    UniqueStep(Image(cs, Endpoint), Endpoint(c));
    hide Unique, Image, Parts, Pins;
  }

  // ------------------------------------------------------------- the method

  /** Enters pins into the common set, one by one. */
  method AddPins(pins: seq<bytes>, known: set<bytes>, ghost before: seq<bytes>)
    returns (r: Option<seq<bytes>>, all: set<bytes>)
    requires Unique(before) && known == Elements(before)
    ensures r.Some? <==> PinsOk(pins) && Unique(before + Image(pins, LowerText))
    ensures r.Some? ==> r.value == Image(pins, LowerText) && all == Elements(before + r.value)
  {
    hide Unique, Canonical, LowerText;
    var done: seq<bytes> := [];
    all := known;
    assert before + [] == before;
    for i := 0 to |pins|
      invariant |done| == i && done == Image(pins, LowerText)[..i] && all == Elements(before + done)
      invariant Unique(before + done)
      invariant forall k :: 0 <= k < i ==> Canonical(pins[k], 64).Some?
    {
      var whole := before + Image(pins, LowerText);
      var pin := Canonical(pins[i], 64);
      if pin.None? {
        return None, all;
      }
      CanonicalLower(pins[i], 64);
      assert before + done + [pin.value] == before + (done + [pin.value]) == whole[..|before| + i + 1];
      UniqueStep(before + done, pin.value);
      ElementsPlus(before + done, pin.value);
      if pin.value in all {
        if Unique(whole) {
          UniquePrefix(whole, |before| + i + 1);
        }
        return None, all;
      }
      done, all := done + [pin.value], all + {pin.value};
    }
    assert done == Image(pins, LowerText);
    r := Some(done);
  }

  lemma CanonicalLower(text: bytes, count: nat)
    requires Canonical(text, count).Some?
    ensures Canonical(text, count).value == LowerText(text)
  {
  }

  /** The sets against which each node is checked. */
  datatype Used = Used(ids: set<bytes>, validators: set<bytes>, endpoints: set<(bytes, nat)>, pins: set<bytes>)

  /** The sets hold what these nodes have used up. */
  ghost predicate Uses(used: Used, cs: seq<Node>) {
    && used.ids == Elements(Image(cs, Id)) && used.validators == Elements(Image(cs, Validator))
    && used.endpoints == (set x | x in Image(cs, Endpoint)) && used.pins == Elements(Parts(cs, Pins))
  }

  /** What the loop keeps: the nodes before this one are canonical and apart. */
  ghost predicate Tracked(nodes: seq<Node>, hosts: Hosts, cs: seq<Node>, used: Used) {
    AllOk(nodes, hosts) && cs == Canons(nodes, hosts) && Apart(cs) && Uses(used, cs)
  }

  /** The loop body: one node, checked, canonicalized and entered into the sets. */
  method EnterNode(n: Node, hosts: Hosts, used: Used, ghost cs: seq<Node>) returns (r: Option<(Node, Used)>)
    requires Apart(cs) && Uses(used, cs)
    ensures r.Some? <==> NodeOk(n, hosts) && Apart(cs + [Canon(n, hosts)])
    ensures r.Some? ==> r.value.0 == Canon(n, hosts) && Uses(r.value.1, cs + [r.value.0])
  {
    ghost var c := Canon(n, hosts);
    ApartPlus(cs, c);
    PinsJoin(cs, c);
    UsesPlus(cs, c);
    hide Apart, Unique, Canonical, LowerText, PermissionOk, Parts;
    var id, validator, host := Canonical(n.id, 64), Canonical(n.validator, 40), hosts(n.host);
    if id.None? || validator.None? || host.None? || n.port == 0 || !PermissionOk(n.permission) {
      return None;
    }
    CanonicalLower(n.id, 64);
    CanonicalLower(n.validator, 40);
    if id.value in used.ids || validator.value in used.validators || (host.value, n.port) in used.endpoints {
      return None;
    }
    if n.active == [] || |n.active| > MAX_PINS || |n.revoked| > MAX_PINS {
      return None;
    }
    var active, pins := AddPins(n.active, used.pins, Parts(cs, Pins));
    if active.None? {
      return None;
    }
    var revoked;
    revoked, pins := AddPins(n.revoked, pins, Parts(cs, Pins) + active.value);
    if revoked.None? {
      return None;
    }
    var node := Node(id.value, validator.value, host.value, n.port, n.permission, active.value, revoked.value);
    r := Some((node, Used(used.ids + {node.id}, used.validators + {node.validator},
                          used.endpoints + {Endpoint(node)}, pins)));
  }

  lemma UsesPlus(cs: seq<Node>, c: Node)
    ensures Elements(Image(cs + [c], Id)) == Elements(Image(cs, Id)) + {c.id}
    ensures Elements(Image(cs + [c], Validator)) == Elements(Image(cs, Validator)) + {c.validator}
    ensures (set x | x in Image(cs + [c], Endpoint)) == (set x | x in Image(cs, Endpoint)) + {Endpoint(c)}
  {
    ImagePlus(cs, c, Id);
    ImagePlus(cs, c, Validator);
    ImagePlus(cs, c, Endpoint);
    hide Image;
    ElementsPlus(Image(cs, Id), c.id);
    ElementsPlus(Image(cs, Validator), c.validator);
  }

  lemma PinsJoin(cs: seq<Node>, c: Node)
    requires Unique(Parts(cs, Pins))
    ensures Parts(cs + [c], Pins) == Parts(cs, Pins) + Pins(c) == Parts(cs, Pins) + c.active + c.revoked
    ensures Unique(Parts(cs, Pins) + Pins(c)) ==> Unique(Parts(cs, Pins) + c.active)
  {
    var whole := Parts(cs, Pins) + Pins(c);
    PartsPlus(cs, c, Pins);
    assert whole == Parts(cs, Pins) + c.active + c.revoked;
    if Unique(whole) {
      UniquePrefix(whole, |Parts(cs, Pins)| + |c.active|);
      assert whole[..|Parts(cs, Pins)| + |c.active|] == Parts(cs, Pins) + c.active;
    }
  }

  lemma CanonsPrefix(nodes: seq<Node>, hosts: Hosts, i: nat)
    requires i < |nodes|
    ensures Canons(nodes, hosts)[..i + 1] == Canons(nodes[..i], hosts) + [Canon(nodes[i], hosts)]
  {
    hide Canon, Image;
  }

  ghost predicate Enterable(nodes: seq<Node>, hosts: Hosts) {
    AllOk(nodes, hosts) && Apart(Canons(nodes, hosts))
  }

  lemma NodeEnters(nodes: seq<Node>, i: nat, hosts: Hosts)
    requires i < |nodes| && Enterable(nodes, hosts)
    ensures NodeOk(nodes[i], hosts) && Apart(Canons(nodes[..i], hosts) + [Canon(nodes[i], hosts)])
  {
    hide Apart, NodeOk, Canon, Canons, Image;
    ApartPrefix(Canons(nodes, hosts), i + 1);
    CanonsPrefix(nodes, hosts, i);
  }

  lemma TrackedNext(nodes: seq<Node>, i: nat, hosts: Hosts, cs: seq<Node>, used: Used, c: Node, more: Used)
    requires i < |nodes| && Tracked(nodes[..i], hosts, cs, used)
    requires NodeOk(nodes[i], hosts) && c == Canon(nodes[i], hosts) && Apart(cs + [c]) && Uses(more, cs + [c])
    ensures Tracked(nodes[..i + 1], hosts, cs + [c], more)
  {
    hide Canon, NodeOk, Apart, Uses;
    assert nodes[..i + 1] == nodes[..i] + [nodes[i]];
    ImagePlus(nodes[..i], nodes[i], CanonWith(hosts));
    hide Image;
  }

  lemma TrackedStart(hosts: Hosts)
    ensures Tracked([], hosts, [], Used({}, {}, {}, {}))
  {
  }

  /** The loop of `validated_network`: nodes are canonicalized in place and checked
      against the sets of what earlier nodes used. */
  method EnterNodes(listed: seq<Node>, hosts: Hosts) returns (r: Option<(seq<Node>, Used)>)
    ensures r.Some? <==> Enterable(listed, hosts)
    ensures r.Some? ==> Uses(r.value.1, Canons(listed, hosts)) && r.value.0 == Image(Canons(listed, hosts), Settle)
  {
    hide *;
    var nodes, used := listed, Used({}, {}, {}, {});
    ghost var cs: seq<Node> := [];
    TrackedStart(hosts);
    assert listed[..0] == [];
    for i := 0 to |listed|
      invariant Tracked(listed[..i], hosts, cs, used) && |cs| == i && |nodes| == |listed|
      invariant forall k :: 0 <= k < i ==> nodes[k] == Settle(cs[k])
      invariant forall k :: i <= k < |listed| ==> nodes[k] == listed[k]
    {
      TrackedApart(listed[..i], hosts, cs, used);
      var entered := EnterNode(nodes[i], hosts, used, cs);
      if entered.None? {
        if Enterable(listed, hosts) {
          NodeEnters(listed, i, hosts);
        }
        return None;
      }
      TrackedNext(listed, i, hosts, cs, used, entered.value.0, entered.value.1);
      cs, used := cs + [entered.value.0], entered.value.1;
      nodes := nodes[i := Settle(entered.value.0)];
    }
    assert listed[..|listed|] == listed;
    TrackedEnds(listed, hosts, cs, used, nodes);
    r := Some((nodes, used));
  }

  /** `validated_network`. */
  method ValidatedNetwork(d: Document, members: set<bytes>, hosts: Hosts) returns (r: Option<seq<Node>>)
    ensures r.Some? <==> NetworkOk(d, members, hosts)
    ensures r.Some? ==> r.value == Settled(Canons(d.nodes, hosts))
  {
    hide AllOk, Apart, Canons, Image, Elements, Sorted, Parts, Ascii;
    if d.schemaVersion != 1 || d.kind != Ascii("BXDL_QBFT_NETWORK") || d.nodes == [] || |d.nodes| > MAX_NODES {
      return None;
    }
    var entered := EnterNodes(d.nodes, hosts);
    if entered.None? || entered.value.1.validators != members {
      return None;
    }
    r := Some(Sorted(entered.value.0, Id));
  }

  lemma TrackedApart(nodes: seq<Node>, hosts: Hosts, cs: seq<Node>, used: Used)
    requires Tracked(nodes, hosts, cs, used)
    ensures cs == Canons(nodes, hosts) && Apart(cs) && Uses(used, cs)
  {
    hide AllOk, Canons, Apart, Uses;
  }

  lemma TrackedEnds(listed: seq<Node>, hosts: Hosts, cs: seq<Node>, used: Used, nodes: seq<Node>)
    requires Tracked(listed, hosts, cs, used)
    requires |nodes| == |cs| && forall k :: 0 <= k < |cs| ==> nodes[k] == Settle(cs[k])
    ensures Enterable(listed, hosts) && Uses(used, Canons(listed, hosts))
    ensures nodes == Image(Canons(listed, hosts), Settle)
  {
    hide AllOk, Canons, Apart, Parts, Elements, Settle, Uses;
    assert nodes == Image(cs, Settle);
  }

  // ------------------------------------------------------ order does not matter

  lemma {:induction false} PartsAlike(a: seq<Node>, b: seq<Node>)
    requires |a| == |b| && forall i :: 0 <= i < |a| ==> multiset(Pins(a[i])) == multiset(Pins(b[i]))
    ensures multiset(Parts(a, Pins)) == multiset(Parts(b, Pins))
    decreases |a|
  {
    if a != [] {
      PartsAlike(a[..|a| - 1], b[..|b| - 1]);
    }
  }

  lemma UniqueOrder<T(!new)>(a: seq<T>, b: seq<T>)
    requires multiset(a) == multiset(b)
    ensures Unique(a) <==> Unique(b)
  {
  }

  lemma ElementsOrder(a: seq<bytes>, b: seq<bytes>)
    requires multiset(a) == multiset(b)
    ensures Elements(a) == Elements(b)
  {
    assert forall x :: x in a <==> x in multiset(a);
    assert forall x :: x in b <==> x in multiset(b);
  }

  lemma ApartOrder(a: seq<Node>, b: seq<Node>)
    requires multiset(a) == multiset(b)
    ensures Apart(a) <==> Apart(b)
    ensures Elements(Image(a, Validator)) == Elements(Image(b, Validator))
  {
    ImageOrder(a, b, Id);
    ImageOrder(a, b, Validator);
    ImageOrder(a, b, Endpoint);
    PartsOrder(a, b, Pins);
    UniqueOrder(Image(a, Id), Image(b, Id));
    UniqueOrder(Image(a, Validator), Image(b, Validator));
    UniqueOrder(Image(a, Endpoint), Image(b, Endpoint));
    UniqueOrder(Parts(a, Pins), Parts(b, Pins));
    ElementsOrder(Image(a, Validator), Image(b, Validator));
    hide Unique, Image, Parts;
  }

  lemma SettledKeys(cs: seq<Node>)
    requires Apart(cs)
    ensures DistinctKeys(Image(cs, Settle), Id)
  {
    UniqueApart(Image(cs, Id));
    hide Unique, Parts, Sorted;
  }

  lemma AllOkOrder(a: seq<Node>, b: seq<Node>, hosts: Hosts)
    requires multiset(a) == multiset(b) && AllOk(a, hosts)
    ensures AllOk(b, hosts)
  {
    hide NodeOk;
    forall i | 0 <= i < |b| ensures NodeOk(b[i], hosts) {
      assert b[i] in multiset(a);
      assert b[i] in a;
    }
  }

  /** The order of nodes changes neither the verdict nor the result. */
  lemma NodeOrder(d: Document, e: Document, members: set<bytes>, hosts: Hosts)
    requires d.schemaVersion == e.schemaVersion && d.kind == e.kind && multiset(d.nodes) == multiset(e.nodes)
    ensures NetworkOk(d, members, hosts) <==> NetworkOk(e, members, hosts)
    ensures NetworkOk(d, members, hosts) ==> Settled(Canons(d.nodes, hosts)) == Settled(Canons(e.nodes, hosts))
  {
    var a, b := Canons(d.nodes, hosts), Canons(e.nodes, hosts);
    assert |d.nodes| == |multiset(d.nodes)| == |multiset(e.nodes)| == |e.nodes|;
    ImageOrder(d.nodes, e.nodes, CanonWith(hosts));
    assert multiset(a) == multiset(b);
    ApartOrder(a, b);
    if AllOk(d.nodes, hosts) {
      AllOkOrder(d.nodes, e.nodes, hosts);
    }
    if AllOk(e.nodes, hosts) {
      AllOkOrder(e.nodes, d.nodes, hosts);
    }
    hide Apart, AllOk, Canons, Image, Ascii, Elements, Settled;
    if NetworkOk(d, members, hosts) {
      SettledOrder(a, b);
    }
  }

  lemma SettledOrder(a: seq<Node>, b: seq<Node>)
    requires multiset(a) == multiset(b) && Apart(a) && Apart(b)
    ensures Settled(a) == Settled(b)
  {
    ImageOrder(a, b, Settle);
    SettledKeys(a);
    SettledKeys(b);
    SortedOrder(Image(a, Settle), Image(b, Settle), Id);
    hide Apart, Image, Sorted, Settle;
  }

  /** The same node with its pins listed in another order. */
  predicate SamePins(a: Node, b: Node) {
    a == b.(active := a.active, revoked := a.revoked)
    && multiset(a.active) == multiset(b.active) && multiset(a.revoked) == multiset(b.revoked)
  }

  lemma PinsOkOrder(a: seq<bytes>, b: seq<bytes>)
    requires multiset(a) == multiset(b) && PinsOk(a)
    ensures PinsOk(b)
  {
    hide Canonical;
    forall i | 0 <= i < |b| ensures Canonical(b[i], 64).Some? {
      assert b[i] in multiset(a);
      assert b[i] in a;
    }
  }

  lemma SameNodeOk(a: Node, b: Node, hosts: Hosts)
    requires SamePins(a, b)
    ensures NodeOk(a, hosts) <==> NodeOk(b, hosts)
  {
    assert |a.active| == |multiset(a.active)| == |b.active| && |a.revoked| == |multiset(a.revoked)| == |b.revoked|;
    hide Canonical, PermissionOk, PinsOk;
    if PinsOk(a.active) { PinsOkOrder(a.active, b.active); }
    if PinsOk(b.active) { PinsOkOrder(b.active, a.active); }
    if PinsOk(a.revoked) { PinsOkOrder(a.revoked, b.revoked); }
    if PinsOk(b.revoked) { PinsOkOrder(b.revoked, a.revoked); }
  }

  lemma SameCanon(a: Node, b: Node, hosts: Hosts)
    requires SamePins(a, b)
    ensures var (x, y) := (Canon(a, hosts), Canon(b, hosts));
            SamePins(x, y) && multiset(Pins(x)) == multiset(Pins(y))
  {
    ImageOrder(a.active, b.active, LowerText);
    ImageOrder(a.revoked, b.revoked, LowerText);
    hide Image, LowerText;
  }

  lemma PartHas(cs: seq<Node>, i: nat)
    requires i < |cs|
    ensures forall x :: multiset(Pins(cs[i]))[x] <= multiset(Parts(cs, Pins))[x]
  {
    PartsRemove(cs, Pins, i);
    hide Parts, Pins;
  }

  lemma PinsApart(cs: seq<Node>, i: nat)
    requires Apart(cs) && i < |cs|
    ensures DistinctKeys(cs[i].active, Self) && DistinctKeys(cs[i].revoked, Self)
  {
    PartHas(cs, i);
    var c := cs[i];
    assert multiset(Pins(c)) == multiset(c.active) + multiset(c.revoked);
    assert Unique(c.active) && Unique(c.revoked) by {
      assert forall x :: multiset(c.active)[x] <= multiset(Pins(c))[x] <= multiset(Parts(cs, Pins))[x];
      assert forall x :: multiset(c.revoked)[x] <= multiset(Pins(c))[x];
    }
    UniqueApart(c.active);
    UniqueApart(c.revoked);
  }

  lemma SameSettled(a: seq<Node>, b: seq<Node>)
    requires |a| == |b| && Apart(a) && Apart(b) && forall i :: 0 <= i < |a| ==> SamePins(a[i], b[i])
    ensures Image(a, Settle) == Image(b, Settle)
  {
    hide Apart, Sorted, DistinctKeys;
    forall i | 0 <= i < |a| ensures Settle(a[i]) == Settle(b[i]) {
      PinsApart(a, i);
      PinsApart(b, i);
      SortedOrder(a[i].active, b[i].active, Self);
      SortedOrder(a[i].revoked, b[i].revoked, Self);
    }
  }

  lemma SameApart(a: seq<Node>, b: seq<Node>)
    requires |a| == |b|
    requires forall i :: 0 <= i < |a| ==> SamePins(a[i], b[i]) && multiset(Pins(a[i])) == multiset(Pins(b[i]))
    ensures Apart(a) <==> Apart(b)
    ensures Image(a, Validator) == Image(b, Validator)
  {
    PartsAlike(a, b);
    UniqueOrder(Parts(a, Pins), Parts(b, Pins));
    hide Unique, Pins, Parts;
    assert Image(a, Id) == Image(b, Id);
    assert Image(a, Validator) == Image(b, Validator);
    assert Image(a, Endpoint) == Image(b, Endpoint);
  }

  lemma SameAllOk(a: seq<Node>, b: seq<Node>, hosts: Hosts)
    requires |a| == |b| && forall i :: 0 <= i < |a| ==> SamePins(a[i], b[i])
    ensures AllOk(a, hosts) <==> AllOk(b, hosts)
  {
    hide NodeOk, SamePins;
    forall i | 0 <= i < |a| ensures NodeOk(a[i], hosts) <==> NodeOk(b[i], hosts) {
      SameNodeOk(a[i], b[i], hosts);
    }
  }

  /** Nor does the order of pins within a node. */
  lemma PinOrder(d: Document, e: Document, members: set<bytes>, hosts: Hosts)
    requires d.schemaVersion == e.schemaVersion && d.kind == e.kind && |d.nodes| == |e.nodes|
    requires forall i :: 0 <= i < |d.nodes| ==> SamePins(d.nodes[i], e.nodes[i])
    ensures NetworkOk(d, members, hosts) <==> NetworkOk(e, members, hosts)
    ensures NetworkOk(d, members, hosts) ==> Settled(Canons(d.nodes, hosts)) == Settled(Canons(e.nodes, hosts))
  {
    var a, b := Canons(d.nodes, hosts), Canons(e.nodes, hosts);
    SameAllOk(d.nodes, e.nodes, hosts);
    hide Apart, AllOk, NodeOk, Canons, Canon, Pins, SamePins, Ascii, Elements, Sorted, Image;
    forall i | 0 <= i < |a| ensures SamePins(a[i], b[i]) && multiset(Pins(a[i])) == multiset(Pins(b[i])) {
      SameCanon(d.nodes[i], e.nodes[i], hosts);
    }
    SameApart(a, b);
    if NetworkOk(d, members, hosts) {
      SameSettled(a, b);
    }
  }

  lemma SettledBag(cs: seq<Node>)
    ensures multiset(Settled(cs)) == multiset(Image(cs, Settle))
    ensures multiset(Image(Settled(cs), Validator)) == multiset(Image(cs, Validator))
    ensures multiset(Parts(Settled(cs), Pins)) == multiset(Parts(cs, Pins))
  {
    var s := Image(cs, Settle);
    SortedBag(s, Id);
    ImageOrder(Settled(cs), s, Validator);
    assert Image(s, Validator) == Image(cs, Validator);
    PartsOrder(Settled(cs), s, Pins);
    SettlePins(cs);
    PartsAlike(s, cs);
  }

  /** An accepted result rises strictly by node id, holds exactly the canonical
      nodes, repeats no pin, and its validators are the chain's members. */
  lemma ResultSound(d: Document, members: set<bytes>, hosts: Hosts)
    requires NetworkOk(d, members, hosts)
    ensures var cs := Canons(d.nodes, hosts);
            var r := Settled(cs);
            && Rising(r, Id) && multiset(r) == multiset(Image(cs, Settle))
            && Elements(Image(r, Validator)) == members && Unique(Parts(r, Pins))
  {
    var cs := Canons(d.nodes, hosts);
    SettledKeys(cs);
    SortedRises(Image(cs, Settle), Id);
    SettledBag(cs);
    ElementsOrder(Image(Settled(cs), Validator), Image(cs, Validator));
    UniqueOrder(Parts(Settled(cs), Pins), Parts(cs, Pins));
    hide Canons, Canon, AllOk, HeaderFits, Image, Parts, Sorted, Unique, Elements, Rising;
  }

  lemma SettlePins(cs: seq<Node>)
    ensures forall i :: 0 <= i < |cs| ==> multiset(Pins(Image(cs, Settle)[i])) == multiset(Pins(cs[i]))
  {
    forall i | 0 <= i < |cs| ensures multiset(Pins(Settle(cs[i]))) == multiset(Pins(cs[i])) {
      SortedBag(cs[i].active, Self);
      SortedBag(cs[i].revoked, Self);
    }
  }
}
