/** The native peer settings (src/config/network.rs, the peer loop of `load`):
    every other node under consecutive indices, and no setting written twice. */
module Peers {
  import opened Prelude
  import opened Lists
  import opened Network

  const PREFIX: bytes := Ascii("nigo.protocol.consensus.qbft.node.")
  const PEERS: bytes := Ascii("peers")

  datatype Attribute = NodeId | ValidatorId | Role | Host | Permission | Port | ActivePin(i: nat) | RevokedPin(i: nat)

  datatype Setting = Word(text: bytes) | Count(n: nat)

  function Name(a: Attribute): bytes {
    match a
    case NodeId => Ascii("node-id")
    case ValidatorId => Ascii("validator-id")
    case Role => Ascii("role")
    case Host => Ascii("host")
    case Permission => Ascii("transaction-permission")
    case Port => Ascii("port")
    case ActivePin(_) => Ascii("credential-fingerprints")
    case RevokedPin(_) => Ascii("revoked-credential-fingerprints")
  }

  function Text(a: Attribute): bytes {
    match a
    case ActivePin(i) => Name(a) + [0x5B] + DecimalText(i) + [0x5D]
    case RevokedPin(i) => Name(a) + [0x5B] + DecimalText(i) + [0x5D]
    case _ => Name(a)
  }

  function Tail(index: nat, a: Attribute): bytes {
    DecimalText(index) + [0x5D] + ([0x2E] + Text(a))
  }

  function PeerKey(index: nat, a: Attribute): bytes {
    PREFIX + PEERS + [0x5B] + Tail(index, a)
  }

  function SettingOf(n: Node, a: Attribute): Setting {
    match a
    case NodeId => Word(n.id)
    case ValidatorId => Word(n.validator)
    case Role => Word(Ascii("VALIDATOR"))
    case Host => Word(n.host)
    case Permission => Word(n.permission)
    case Port => Count(n.port)
    case ActivePin(i) => if i < |n.active| then Word(n.active[i]) else Count(0)
    case RevokedPin(i) => if i < |n.revoked| then Word(n.revoked[i]) else Count(0)
  }

  function PinMarks(n: nat, f: nat -> Attribute): (r: seq<Attribute>)
    ensures |r| == n && forall i :: 0 <= i < n ==> r[i] == f(i)
  {
    seq(n, i requires 0 <= i < n => f(i))
  }

  /** What is written for one peer, in order. */
  function Marks(n: Node): seq<Attribute> {
    [NodeId, ValidatorId, Role, Host, Permission, Port]
    + PinMarks(|n.active|, (i: nat) => ActivePin(i)) + PinMarks(|n.revoked|, (i: nat) => RevokedPin(i))
  }

  // ------------------------------------------------------- keys are distinct

  const NAMES: seq<bytes> := [
    Ascii("node-id"), Ascii("validator-id"), Ascii("role"), Ascii("host"), Ascii("transaction-permission"),
    Ascii("port"), Ascii("credential-fingerprints"), Ascii("revoked-credential-fingerprints")]

  function Rank(a: Attribute): nat {
    match a
    case NodeId => 0 case ValidatorId => 1 case Role => 2 case Host => 3
    case Permission => 4 case Port => 5 case ActivePin(_) => 6 case RevokedPin(_) => 7
  }

  lemma NamesDistinct(i: nat, j: nat)
    requires i < |NAMES| && j < |NAMES| && NAMES[i] == NAMES[j]
    ensures i == j
  {
    assert |NAMES[0]| == 7 && |NAMES[1]| == 12 && |NAMES[2]| == 4 && |NAMES[3]| == 4 && |NAMES[4]| == 22;
    assert |NAMES[5]| == 4 && |NAMES[6]| == 23 && |NAMES[7]| == 31;
    assert NAMES[2][0] != NAMES[3][0] && NAMES[2][0] != NAMES[5][0] && NAMES[3][0] != NAMES[5][0];
  }

  lemma NameRank(a: Attribute)
    ensures Rank(a) < |NAMES| && Name(a) == NAMES[Rank(a)]
  {
    hide Ascii;
  }

  lemma NamePlain(text: string)
    requires forall i :: 0 <= i < |text| ==> text[i] as int < 0x5B || (0x5B < text[i] as int < 0x80)
    ensures 0x5B !in Ascii(text)
  {
  }

  lemma NoBracket(a: Attribute)
    ensures 0x5B !in Name(a)
  {
    NamePlain("node-id"); NamePlain("validator-id"); NamePlain("role"); NamePlain("host");
    NamePlain("transaction-permission"); NamePlain("port");
    NamePlain("credential-fingerprints"); NamePlain("revoked-credential-fingerprints");
    hide Ascii;
  }

  /** A text is split by its first occurrence of a byte. */
  lemma SplitFirst(a: bytes, x: bytes, b: bytes, y: bytes, mark: byte)
    requires mark !in a && mark !in b && a + [mark] + x == b + [mark] + y
    ensures a == b && x == y
  {
    var s := a + [mark] + x;
    FindIs(s, mark, |a|);
    var t := b + [mark] + y;
    assert forall i :: 0 <= i < |b| ==> t[i] == b[i];
    FindIs(t, mark, |b|);
    assert a == s[..|a|] == b && x == s[|a| + 1..] == y;
  }

  lemma DecimalPlain(n: nat, mark: byte)
    requires !IsDigit(mark)
    ensures mark !in DecimalText(n)
  {
  }

  lemma DecimalInjective(i: nat, j: nat)
    requires DecimalText(i) == DecimalText(j)
    ensures i == j
  {
    DecimalRoundTrip(i);
    DecimalRoundTrip(j);
  }

  predicate Indexed(a: Attribute) {
    a.ActivePin? || a.RevokedPin?
  }

  lemma TextInjective(a: Attribute, b: Attribute)
    requires Text(a) == Text(b)
    ensures a == b
  {
    NoBracket(a);
    NoBracket(b);
    NameRank(a);
    NameRank(b);
    hide Name, NAMES;
    if Indexed(a) && Indexed(b) {
      IndexedInjective(a, b);
    } else {
      assert Indexed(a) ==> 0x5B in Text(a);
      assert Indexed(b) ==> 0x5B in Text(b);
      NamesDistinct(Rank(a), Rank(b));
    }
  }

  lemma IndexedInjective(a: Attribute, b: Attribute)
    requires Indexed(a) && Indexed(b) && Text(a) == Text(b)
    ensures a == b
  {
    NoBracket(a);
    NoBracket(b);
    NameRank(a);
    NameRank(b);
    hide Name, NAMES;
    assert Text(a) == Name(a) + [0x5B] + (DecimalText(a.i) + [0x5D]);
    assert Text(b) == Name(b) + [0x5B] + (DecimalText(b.i) + [0x5D]);
    SplitFirst(Name(a), DecimalText(a.i) + [0x5D], Name(b), DecimalText(b.i) + [0x5D], 0x5B);
    NamesDistinct(Rank(a), Rank(b));
    DecimalPlain(a.i, 0x5D);
    DecimalPlain(b.i, 0x5D);
    assert DecimalText(a.i) + [0x5D] == DecimalText(a.i) + [0x5D] + [];
    assert DecimalText(b.i) + [0x5D] == DecimalText(b.i) + [0x5D] + [];
    SplitFirst(DecimalText(a.i), [], DecimalText(b.i), [], 0x5D);
    DecimalInjective(a.i, b.i);
  }

  /** Different settings of different peers never share a key. */
  lemma PeerKeyInjective(i: nat, a: Attribute, j: nat, b: Attribute)
    requires PeerKey(i, a) == PeerKey(j, b)
    ensures i == j && a == b
  {
    hide PREFIX, PEERS, Text;
    var n := |PREFIX + PEERS + [0x5B]|;
    assert PeerKey(i, a)[n..] == Tail(i, a) && PeerKey(j, b)[n..] == Tail(j, b);
    DecimalPlain(i, 0x5D);
    DecimalPlain(j, 0x5D);
    SplitFirst(DecimalText(i), [0x2E] + Text(a), DecimalText(j), [0x2E] + Text(b), 0x5D);
    DecimalInjective(i, j);
    assert ([0x2E] + Text(a))[1..] == Text(a) && ([0x2E] + Text(b))[1..] == Text(b);
    TextInjective(a, b);
  }

  // ------------------------------------------------------------ the settings

  /** The settings made before the peers, and those of the peers so far: no more. */
  ghost predicate Holds(node: map<bytes, Setting>, base: map<bytes, Setting>, peers: seq<Node>, upTo: nat) {
    && (forall k <- base :: k in node && node[k] == base[k])
    && (forall k <- node :: k in base || exists i: nat, a :: i < |peers| && Among(a, peers, i, upTo) && k == PeerKey(i, a))
    && (forall i: nat, a :: i < |peers| && Among(a, peers, i, upTo) ==>
          PeerKey(i, a) in node && node[PeerKey(i, a)] == SettingOf(peers[i], a))
  }

  /** All settings of the peers before the last, and the first `upTo` of the last. */
  predicate Among(a: Attribute, peers: seq<Node>, i: nat, upTo: nat)
    requires i < |peers|
  {
    var marks := Marks(peers[i]);
    if i == |peers| - 1 && upTo <= |marks| then a in marks[..upTo] else a in marks
  }

  lemma MarksDistinct(n: Node, i: nat, j: nat)
    requires i < j < |Marks(n)|
    ensures Marks(n)[i] != Marks(n)[j]
  {
  }

  /** No key of a peer is among the settings made before. */
  predicate NoPeers(base: map<bytes, Setting>) {
    forall k <- base :: !HasPrefix(k, PREFIX + PEERS)
  }

  /** The keys that `load` sets before the peers. */
  const LEADING: seq<bytes> := [
    Ascii("server.address"), Ascii("server.port"),
    Ascii("nigo.monitor.console.enabled"), Ascii("nigo.monitor.console.gc-control-enabled"),
    Ascii("nigo.storage.gc.automatic.enabled"), Ascii("nigo.transaction-ingress.permission"),
    Ascii("nigo.protocol.consensus.auto-start"),
    Ascii("nigo.protocol.consensus.qbft.sync.enabled"), Ascii("nigo.protocol.consensus.qbft.sync.trust-mode"),
    Ascii("nigo.protocol.consensus.qbft.sync.archive.enabled")]

  const OWN: seq<bytes> := [
    Ascii("role"), Ascii("node-id"), Ascii("validator-id"), Ascii("listen-host"),
    Ascii("transport-security-scheme"), Ascii("keystore-path"), Ascii("keystore-password-file"),
    Ascii("mtls-key-store-path"), Ascii("mtls-key-store-password-file"), Ascii("mtls-trust-store-path"),
    Ascii("mtls-trust-store-password-file"), Ascii("mtls-key-store-type"), Ascii("mtls-trust-store-type"),
    Ascii("listen-port")]

  /** None of them is the key of a peer setting. */
  lemma LeadingClear(base: map<bytes, Setting>)
    requires forall k <- base :: k in LEADING || exists i :: 0 <= i < |OWN| && k == PREFIX + OWN[i]
    ensures NoPeers(base)
  {
    forall k | k in base ensures !HasPrefix(k, PREFIX + PEERS) {
      if k in LEADING {
        var i :| 0 <= i < |LEADING| && k == LEADING[i];
        LeadingDiffers(i);
      } else {
        var i :| 0 <= i < |OWN| && k == PREFIX + OWN[i];
        OwnDiffers(i);
      }
    }
  }

  lemma LeadingDiffers(i: nat)
    requires i < |LEADING|
    ensures !HasPrefix(LEADING[i], PREFIX + PEERS)
  {
    var at := if i < 2 then 0 else if i < 6 then 5 else if i == 6 then 24 else 29;
    assert at < |LEADING[i]| && LEADING[i][at] != (PREFIX + PEERS)[at];
  }

  lemma OwnDiffers(i: nat)
    requires i < |OWN|
    ensures !HasPrefix(PREFIX + OWN[i], PREFIX + PEERS)
  {
    assert OWN[i][0] != PEERS[0];
    assert (PREFIX + OWN[i])[|PREFIX|] == OWN[i][0] && (PREFIX + PEERS)[|PREFIX|] == PEERS[0];
  }

  /** One setting: its key is new. */
  method Put(node: map<bytes, Setting>, key: bytes, s: Setting) returns (next: map<bytes, Setting>)
    requires key !in node
    ensures next == node[key := s]
  {
    next := node[key := s];
  }

  lemma FreshKey(node: map<bytes, Setting>, base: map<bytes, Setting>, peers: seq<Node>, upTo: nat)
    requires Holds(node, base, peers, upTo) && NoPeers(base) && peers != []
    requires upTo < |Marks(peers[|peers| - 1])|
    ensures PeerKey(|peers| - 1, Marks(peers[|peers| - 1])[upTo]) !in node
  {
    var last := |peers| - 1;
    var mark := Marks(peers[last])[upTo];
    var key := PeerKey(last, mark);
    KeyPrefix(last, mark);
    hide PeerKey, SettingOf, PREFIX, PEERS, Marks;
    forall i: nat, a | i < |peers| && Among(a, peers, i, upTo) ensures key != PeerKey(i, a) {
      if key == PeerKey(i, a) {
        PeerKeyInjective(last, mark, i, a);
        var j :| 0 <= j < upTo && Marks(peers[last])[..upTo][j] == a;
        MarksDistinct(peers[last], j, upTo);
      }
    }
  }

  lemma KeyPrefix(i: nat, a: Attribute)
    ensures HasPrefix(PeerKey(i, a), PREFIX + PEERS)
  {
    hide Tail, PREFIX, PEERS;
    assert PeerKey(i, a)[..|PREFIX + PEERS|] == PREFIX + PEERS;
  }

  /** Writing one more setting of the last peer. */
  lemma HoldsMore(node: map<bytes, Setting>, base: map<bytes, Setting>, peers: seq<Node>, upTo: nat)
    requires Holds(node, base, peers, upTo) && NoPeers(base) && peers != []
    requires upTo < |Marks(peers[|peers| - 1])|
    ensures var mark := Marks(peers[|peers| - 1])[upTo];
            var key := PeerKey(|peers| - 1, mark);
            key !in node && Holds(node[key := SettingOf(peers[|peers| - 1], mark)], base, peers, upTo + 1)
  {
    var last := |peers| - 1;
    var mark := Marks(peers[last])[upTo];
    var next := node[PeerKey(last, mark) := SettingOf(peers[last], mark)];
    FreshKey(node, base, peers, upTo);
    AmongMore(peers, upTo);
    hide PeerKey, SettingOf, Marks, Among, PREFIX, PEERS;
    assert Among(mark, peers, last, upTo + 1);
    NextSet(node, next, base, peers, upTo, mark);
    forall k | k in next && k !in base
      ensures exists i: nat, a :: i < |peers| && Among(a, peers, i, upTo + 1) && k == PeerKey(i, a)
    {
      KeyKnown(node, base, peers, upTo, k);
    }
    hide Holds;
    HoldsParts(node, base, peers, upTo);
    HoldsWhole(next, base, peers, upTo + 1);
  }

  lemma HoldsParts(node: map<bytes, Setting>, base: map<bytes, Setting>, peers: seq<Node>, upTo: nat)
    requires Holds(node, base, peers, upTo)
    ensures forall k <- base :: k in node && node[k] == base[k]
  {
  }

  lemma HoldsWhole(node: map<bytes, Setting>, base: map<bytes, Setting>, peers: seq<Node>, upTo: nat)
    requires forall k <- base :: k in node && node[k] == base[k]
    requires forall k <- node ::
               k in base || exists i: nat, a :: i < |peers| && Among(a, peers, i, upTo) && k == PeerKey(i, a)
    requires forall i: nat, a :: i < |peers| && Among(a, peers, i, upTo) ==>
               PeerKey(i, a) in node && node[PeerKey(i, a)] == SettingOf(peers[i], a)
    ensures Holds(node, base, peers, upTo)
  {
  }

  lemma NextSet(node: map<bytes, Setting>, next: map<bytes, Setting>, base: map<bytes, Setting>, peers: seq<Node>,
                upTo: nat, mark: Attribute)
    requires Holds(node, base, peers, upTo) && peers != []
    requires PeerKey(|peers| - 1, mark) !in node
    requires next == node[PeerKey(|peers| - 1, mark) := SettingOf(peers[|peers| - 1], mark)]
    requires forall i: nat, a :: i < |peers| && Among(a, peers, i, upTo + 1) ==>
               Among(a, peers, i, upTo) || (i == |peers| - 1 && a == mark)
    ensures forall i: nat, a :: i < |peers| && Among(a, peers, i, upTo + 1) ==>
              PeerKey(i, a) in next && next[PeerKey(i, a)] == SettingOf(peers[i], a)
  {
    hide PeerKey, SettingOf, Among;
  }

  lemma KeyKnown(node: map<bytes, Setting>, base: map<bytes, Setting>, peers: seq<Node>, upTo: nat, k: bytes)
    requires Holds(node, base, peers, upTo) && peers != [] && k !in base
    requires forall i: nat, a :: i < |peers| && Among(a, peers, i, upTo) ==> Among(a, peers, i, upTo + 1)
    ensures k in node ==> exists i: nat, a :: i < |peers| && Among(a, peers, i, upTo + 1) && k == PeerKey(i, a)
  {
    hide PeerKey, SettingOf, Among;
  }

  lemma AmongMore(peers: seq<Node>, upTo: nat)
    requires peers != [] && upTo < |Marks(peers[|peers| - 1])|
    ensures forall i: nat, a :: i < |peers| ==>
              (Among(a, peers, i, upTo + 1) <==>
                 Among(a, peers, i, upTo) || (i == |peers| - 1 && a == Marks(peers[|peers| - 1])[upTo]))
  {
    var marks := Marks(peers[|peers| - 1]);
    assert marks[..upTo + 1] == marks[..upTo] + [marks[upTo]];
    hide Marks;
  }

  lemma AmongNext(peers: seq<Node>, peer: Node)
    ensures var all := peers + [peer];
            var upTo := if peers == [] then 0 else |Marks(peers[|peers| - 1])|;
            && (forall i: nat, a :: i < |peers| ==> (Among(a, all, i, 0) <==> Among(a, peers, i, upTo)))
            && (forall a :: !Among(a, all, |peers|, 0))
  {
    hide Marks;
    var all := peers + [peer];
    var upTo := if peers == [] then 0 else |Marks(peers[|peers| - 1])|;
    forall i: nat, a | i < |peers| ensures Among(a, all, i, 0) <==> Among(a, peers, i, upTo) {
      assert all[i] == peers[i];
      if i == |peers| - 1 {
        assert Marks(peers[i])[..upTo] == Marks(peers[i]);
      }
    }
  }

  /** A new peer starts with nothing written. */
  lemma HoldsNext(node: map<bytes, Setting>, base: map<bytes, Setting>, peers: seq<Node>, peer: Node)
    requires Holds(node, base, peers, if peers == [] then 0 else |Marks(peers[|peers| - 1])|)
    ensures Holds(node, base, peers + [peer], 0)
  {
    var all := peers + [peer];
    assert forall i :: 0 <= i < |peers| ==> all[i] == peers[i];
    AmongNext(peers, peer);
    hide PeerKey, SettingOf, Marks, Among;
  }

  ghost predicate Written(node: map<bytes, Setting>, base: map<bytes, Setting>, peers: seq<Node>) {
    Holds(node, base, peers, if peers == [] then 0 else |Marks(peers[|peers| - 1])|)
  }

  /** The settings of one peer. */
  method WritePeer(node: map<bytes, Setting>, ghost base: map<bytes, Setting>, ghost peers: seq<Node>,
                   index: nat, peer: Node)
    returns (next: map<bytes, Setting>)
    requires Written(node, base, peers) && NoPeers(base) && index == |peers|
    ensures Written(next, base, peers + [peer])
  {
    next := node;
    ghost var all := peers + [peer];
    HoldsNext(node, base, peers, peer);
    var marks := Marks(peer);
    hide Holds, NoPeers, PeerKey, SettingOf, Marks;
    for k := 0 to |marks|
      invariant Holds(next, base, all, k)
    {
      HoldsMore(next, base, all, k);
      next := Put(next, PeerKey(index, marks[k]), SettingOf(peer, marks[k]));
    }
  }

  // ------------------------------------------------ the settings by their keys

  /** The literal key of a peer's setting. */
  function KeyText(i: nat, tail: bytes): bytes {
    Ascii("nigo.protocol.consensus.qbft.node.") + Ascii("peers") + [0x5B] + DecimalText(i) + [0x5D] + [0x2E] + tail
  }

  function ActiveKey(i: nat, j: nat): bytes {
    KeyText(i, Ascii("credential-fingerprints") + [0x5B] + DecimalText(j) + [0x5D])
  }

  function RevokedKey(i: nat, j: nat): bytes {
    KeyText(i, Ascii("revoked-credential-fingerprints") + [0x5B] + DecimalText(j) + [0x5D])
  }

  predicate Set(node: map<bytes, Setting>, key: bytes, setting: Setting) {
    key in node && node[key] == setting
  }

  /** Everything about peer `i` stands under its own key. */
  predicate PeerSet(node: map<bytes, Setting>, i: nat, n: Node) {
    && Set(node, KeyText(i, Ascii("node-id")), Word(n.id))
    && Set(node, KeyText(i, Ascii("validator-id")), Word(n.validator))
    && Set(node, KeyText(i, Ascii("role")), Word(Ascii("VALIDATOR")))
    && Set(node, KeyText(i, Ascii("host")), Word(n.host))
    && Set(node, KeyText(i, Ascii("transaction-permission")), Word(n.permission))
    && Set(node, KeyText(i, Ascii("port")), Count(n.port))
    && (forall j :: 0 <= j < |n.active| ==> Set(node, ActiveKey(i, j), Word(n.active[j])))
    && (forall j :: 0 <= j < |n.revoked| ==> Set(node, RevokedKey(i, j), Word(n.revoked[j])))
  }

  /** The key of some setting of peer `i`. */
  predicate KeyOf(k: bytes, i: nat, n: Node) {
    || k == KeyText(i, Ascii("node-id")) || k == KeyText(i, Ascii("validator-id")) || k == KeyText(i, Ascii("role"))
    || k == KeyText(i, Ascii("host")) || k == KeyText(i, Ascii("transaction-permission"))
    || k == KeyText(i, Ascii("port"))
    || (exists j :: 0 <= j < |n.active| && k == ActiveKey(i, j))
    || (exists j :: 0 <= j < |n.revoked| && k == RevokedKey(i, j))
  }

  /** The settings of all peers, each under its key, over the earlier ones, and no
      other. */
  ghost predicate PeersSet(node: map<bytes, Setting>, base: map<bytes, Setting>, peers: seq<Node>) {
    && (forall k <- base :: Set(node, k, base[k]))
    && (forall i :: 0 <= i < |peers| ==> PeerSet(node, i, peers[i]))
    && (forall k <- node :: k in base || exists i :: 0 <= i < |peers| && KeyOf(k, i, peers[i]))
  }

  lemma KeyIs(i: nat, a: Attribute)
    ensures PeerKey(i, a) == match a
              case NodeId => KeyText(i, Ascii("node-id"))
              case ValidatorId => KeyText(i, Ascii("validator-id"))
              case Role => KeyText(i, Ascii("role"))
              case Host => KeyText(i, Ascii("host"))
              case Permission => KeyText(i, Ascii("transaction-permission"))
              case Port => KeyText(i, Ascii("port"))
              case ActivePin(j) => ActiveKey(i, j)
              case RevokedPin(j) => RevokedKey(i, j)
  {
    hide Ascii, DecimalText;
    assert PREFIX == Ascii("nigo.protocol.consensus.qbft.node.") && PEERS == Ascii("peers");
  }

  /** Which settings a node has. */
  lemma MarksAre(n: Node, a: Attribute)
    ensures a in Marks(n) <==>
            match a
            case ActivePin(j) => j < |n.active|
            case RevokedPin(j) => j < |n.revoked|
            case _ => true
  {
    var (heads, active, revoked) := ([NodeId, ValidatorId, Role, Host, Permission, Port],
                                     PinMarks(|n.active|, (i: nat) => ActivePin(i)),
                                     PinMarks(|n.revoked|, (i: nat) => RevokedPin(i)));
    assert Marks(n) == heads + active + revoked;
    match a {
      case ActivePin(j) =>
        if j < |n.active| {
          assert active[j] == a;
        }
      case RevokedPin(j) =>
        if j < |n.revoked| {
          assert revoked[j] == a;
        }
      case _ =>
        assert a in heads;
    }
  }

  lemma AmongAll(a: Attribute, peers: seq<Node>, i: nat)
    requires i < |peers|
    ensures Among(a, peers, i, |Marks(peers[|peers| - 1])|) <==> a in Marks(peers[i])
  {
    hide Marks;
    assert Marks(peers[i])[..|Marks(peers[i])|] == Marks(peers[i]);
  }

  lemma AttributeSet(node: map<bytes, Setting>, base: map<bytes, Setting>, peers: seq<Node>, i: nat, a: Attribute)
    requires Written(node, base, peers) && i < |peers| && a in Marks(peers[i])
    ensures Set(node, PeerKey(i, a), SettingOf(peers[i], a))
  {
    AmongAll(a, peers, i);
    hide Marks, PeerKey, SettingOf, Among;
  }

  lemma HeadSet(node: map<bytes, Setting>, base: map<bytes, Setting>, peers: seq<Node>, i: nat, a: Attribute)
    requires Written(node, base, peers) && i < |peers|
    requires match a case ActivePin(j) => j < |peers[i].active| case RevokedPin(j) => j < |peers[i].revoked| case _ => true
    ensures Set(node, PeerKey(i, a), SettingOf(peers[i], a))
  {
    hide Marks, PeerKey, SettingOf, Among, Written;
    MarksAre(peers[i], a);
    AttributeSet(node, base, peers, i, a);
  }

  lemma PinsSet(node: map<bytes, Setting>, base: map<bytes, Setting>, peers: seq<Node>, i: nat)
    requires Written(node, base, peers) && i < |peers|
    ensures var n := peers[i];
            && (forall j :: 0 <= j < |n.active| ==> Set(node, ActiveKey(i, j), Word(n.active[j])))
            && (forall j :: 0 <= j < |n.revoked| ==> Set(node, RevokedKey(i, j), Word(n.revoked[j])))
  {
    hide PeerKey, ActiveKey, RevokedKey, Set, Written;
    var n := peers[i];
    forall j: nat | j < |n.active| ensures Set(node, ActiveKey(i, j), Word(n.active[j])) {
      KeyIs(i, ActivePin(j));
      HeadSet(node, base, peers, i, ActivePin(j));
    }
    forall j: nat | j < |n.revoked| ensures Set(node, RevokedKey(i, j), Word(n.revoked[j])) {
      KeyIs(i, RevokedPin(j));
      HeadSet(node, base, peers, i, RevokedPin(j));
    }
  }

  lemma PeerIsSet(node: map<bytes, Setting>, base: map<bytes, Setting>, peers: seq<Node>, i: nat)
    requires Written(node, base, peers) && i < |peers|
    ensures PeerSet(node, i, peers[i])
  {
    hide PeerKey, ActiveKey, RevokedKey, KeyText, Ascii, Set, Written;
    PinsSet(node, base, peers, i);
    KeyIs(i, NodeId);
    HeadSet(node, base, peers, i, NodeId);
    KeyIs(i, ValidatorId);
    HeadSet(node, base, peers, i, ValidatorId);
    KeyIs(i, Role);
    HeadSet(node, base, peers, i, Role);
    KeyIs(i, Host);
    HeadSet(node, base, peers, i, Host);
    KeyIs(i, Permission);
    HeadSet(node, base, peers, i, Permission);
    KeyIs(i, Port);
    HeadSet(node, base, peers, i, Port);
  }

  lemma AttributeKey(peers: seq<Node>, i: nat, a: Attribute, k: bytes)
    requires i < |peers| && a in Marks(peers[i]) && k == PeerKey(i, a)
    ensures KeyOf(k, i, peers[i])
  {
    KeyIs(i, a);
    MarksAre(peers[i], a);
    hide Marks, PeerKey, KeyText, Ascii, ActiveKey, RevokedKey;
  }

  /** What was written is exactly the settings of the peers. */
  lemma WrittenExact(node: map<bytes, Setting>, base: map<bytes, Setting>, peers: seq<Node>)
    requires Written(node, base, peers)
    ensures PeersSet(node, base, peers)
  {
    hide PeerSet, KeyOf, Marks, PeerKey, SettingOf, Among;
    forall i: nat | i < |peers| ensures PeerSet(node, i, peers[i]) {
      PeerIsSet(node, base, peers, i);
    }
    forall k | k in node && k !in base ensures exists i :: 0 <= i < |peers| && KeyOf(k, i, peers[i]) {
      var upTo := if peers == [] then 0 else |Marks(peers[|peers| - 1])|;
      var i: nat, a :| i < |peers| && Among(a, peers, i, upTo) && k == PeerKey(i, a);
      AmongAll(a, peers, i);
      AttributeKey(peers, i, a, k);
    }
  }

  /** The nodes other than the local one, in the order of the network. */
  function Others(nodes: seq<Node>, local: bytes): seq<Node> {
    if nodes == [] then []
    else Others(nodes[..|nodes| - 1], local)
         + if nodes[|nodes| - 1].id == local then [] else [nodes[|nodes| - 1]]
  }

  /** The peer loop of `load`: indices run on from zero over the other nodes, and
      every setting is new when it is written. */
  method WritePeers(base: map<bytes, Setting>, nodes: seq<Node>, local: bytes) returns (node: map<bytes, Setting>)
    requires NoPeers(base)
    ensures Written(node, base, Others(nodes, local)) && PeersSet(node, base, Others(nodes, local))
  {
    node := base;
    var index := 0;
    ghost var peers: seq<Node> := [];
    WrittenStart(base);
    hide Written, NoPeers, PeersSet;
    for i := 0 to |nodes|
      invariant index == |peers| && peers == Others(nodes[..i], local) && Written(node, base, peers)
    {
      assert nodes[..i + 1][..i] == nodes[..i];
      if nodes[i].id != local {
        node := WritePeer(node, base, peers, index, nodes[i]);
        peers, index := peers + [nodes[i]], index + 1;
      }
    }
    assert nodes[..|nodes|] == nodes;
    WrittenExact(node, base, peers);
  }

  lemma WrittenStart(base: map<bytes, Setting>)
    ensures Written(base, base, [])
  {
  }

  lemma {:induction false} OthersAre(nodes: seq<Node>, local: bytes)
    ensures forall n :: n in Others(nodes, local) <==> n in nodes && n.id != local
    decreases |nodes|
  {
    if nodes != [] {
      OthersAre(nodes[..|nodes| - 1], local);
      assert nodes == nodes[..|nodes| - 1] + [nodes[|nodes| - 1]];
    }
  }

  lemma {:induction false} NoneLocal(nodes: seq<Node>, local: bytes)
    requires forall i :: 0 <= i < |nodes| ==> nodes[i].id != local
    ensures Others(nodes, local) == nodes
    decreases |nodes|
  {
    if nodes != [] {
      NoneLocal(nodes[..|nodes| - 1], local);
    }
  }

  /** With distinct ids, there is one peer fewer than there are nodes. */
  lemma {:induction false} OthersCount(nodes: seq<Node>, local: bytes, at: nat)
    requires DistinctKeys(nodes, Id) && at < |nodes| && nodes[at].id == local
    ensures |Others(nodes, local)| == |nodes| - 1
    decreases |nodes|
  {
    var init, last := nodes[..|nodes| - 1], nodes[|nodes| - 1];
    assert forall i :: 0 <= i < |nodes| ==> Id(nodes[i]) == nodes[i].id;
    if at == |nodes| - 1 {
      NoneLocal(init, local);
    } else {
      OthersCount(init, local, at);
    }
  }
}
