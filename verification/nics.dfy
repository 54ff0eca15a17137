/** The two resolvers of a node's boot interface: by device name, and by MAC address. */
module Nics {
  import opened Strings
  import opened Wrappers

  datatype Kind = Eth | Bond | Vlan | Bridge

  /** `live`: neither removed nor marked for removal. */
  datatype Nic = Nic(kind: Kind, name: string, network: Option<string>, mac: Option<string>,
                     bridge: Option<string>, master: Option<string>, live: bool)

  /** IndexError: a bond without slaves. AttributeError: a member of None. */
  datatype Crash = IndexError | AttributeError

  // ---------- bond slaves ----------

  /** Insertion into a list ordered by name, after its equals, as a stable sort does. */
  function Insert(n: Nic, sorted: seq<Nic>): seq<Nic> {
    if sorted == [] then [n]
    else
      var front, last := sorted[..|sorted| - 1], sorted[|sorted| - 1];
      if LexLess(n.name, last.name) then Insert(n, front) + [last] else sorted + [n]
  }

  predicate IsSlave(bond: Nic, n: Nic) {
    n.kind == Eth && n.live && n.master == Some(bond.name)
  }

  /** `_get_bond_eth_slaves`: the live eths whose master is the bond, by device name. */
  function Slaves(nics: seq<Nic>, bond: Nic): seq<Nic> {
    if nics == [] then []
    else
      var before, n := Slaves(nics[..|nics| - 1], bond), nics[|nics| - 1];
      if IsSlave(bond, n) then Insert(n, before) else before
  }

  ghost predicate Sorted(s: seq<Nic>) {
    forall i, j | 0 <= i < j < |s| :: !LexLess(s[j].name, s[i].name)
  }

  lemma {:induction false} InsertSorts(n: Nic, s: seq<Nic>)
    requires Sorted(s)
    ensures Sorted(Insert(n, s)) && multiset(Insert(n, s)) == multiset(s) + multiset{n}
  {
    if s == [] {
      assert Insert(n, s) == [n];
    } else {
      var front, last := s[..|s| - 1], s[|s| - 1];
      assert s == front + [last];
      if !LexLess(n.name, last.name) {
        forall i | 0 <= i < |s|
          ensures !LexLess(n.name, s[i].name)
        {
          LexTotal(n.name, last.name);
          if LexLess(n.name, s[i].name) && LexLess(last.name, n.name) {
            LexTransitive(last.name, n.name, s[i].name);
          }
        }
      } else {
        InsertSorts(n, front);
        var r := Insert(n, front);
        forall i | 0 <= i < |r|
          ensures !LexLess(last.name, r[i].name)
        {
          assert r[i] in multiset(r);
          assert r[i] == n || r[i] in front;
          LexTotal(last.name, n.name);
        }
      }
    }
  }

  function SlaveSet(nics: seq<Nic>, bond: Nic): multiset<Nic> {
    if nics == [] then multiset{}
    else
      var before, n := SlaveSet(nics[..|nics| - 1], bond), nics[|nics| - 1];
      if IsSlave(bond, n) then before + multiset{n} else before
  }

  lemma {:induction false} SlavesSorted(nics: seq<Nic>, bond: Nic)
    ensures Sorted(Slaves(nics, bond)) && multiset(Slaves(nics, bond)) == SlaveSet(nics, bond)
    ensures forall n :: n in Slaves(nics, bond) <==> n in nics && IsSlave(bond, n)
  {
    if nics != [] {
      var front, last := nics[..|nics| - 1], nics[|nics| - 1];
      assert nics == front + [last];
      SlavesSorted(front, bond);
      if IsSlave(bond, last) {
        InsertSorts(last, Slaves(front, bond));
        forall n
          ensures n in Slaves(nics, bond) <==> n in Slaves(front, bond) || n == last
        {
          assert n in Slaves(nics, bond) <==> n in multiset(Slaves(nics, bond));
          assert n in Slaves(front, bond) <==> n in multiset(Slaves(front, bond));
        }
      }
    }
  }

  /** `_get_bond_eth_slaves(...)[0]` */
  function FirstSlave(nics: seq<Nic>, bond: Nic): Result<Nic, Crash> {
    if Slaves(nics, bond) == [] then Err(IndexError) else Ok(Slaves(nics, bond)[0])
  }

  /** The chosen slave is a live eth of the bond, and none has a lesser name; there is one unless there is no slave. */
  lemma FirstSlaveExact(nics: seq<Nic>, bond: Nic)
    ensures FirstSlave(nics, bond).Err? <==> !exists n | n in nics :: IsSlave(bond, n)
    ensures FirstSlave(nics, bond).Ok? ==>
      var s := FirstSlave(nics, bond).value;
      s in nics && IsSlave(bond, s) &&
      forall n | n in nics && IsSlave(bond, n) :: n.name == s.name || LexLess(s.name, n.name)
  {
    SlavesSorted(nics, bond);
    var slaves := Slaves(nics, bond);
    if slaves != [] {
      var s := slaves[0];
      forall n | n in nics && IsSlave(bond, n)
        ensures n.name == s.name || LexLess(s.name, n.name)
      {
        var j :| 0 <= j < |slaves| && slaves[j] == n;
        LexTotal(n.name, s.name);
      }
    }
  }

  ghost predicate UniqueNames(nics: seq<Nic>) {
    forall i, j | 0 <= i < |nics| && 0 <= j < |nics| && nics[i].name == nics[j].name :: i == j
  }

  /** Reordering the interfaces does not change the chosen slave. */
  lemma FirstSlaveStable(nics: seq<Nic>, other: seq<Nic>, bond: Nic)
    requires UniqueNames(nics) && multiset(nics) == multiset(other)
    ensures FirstSlave(nics, bond) == FirstSlave(other, bond)
  {
    FirstSlaveExact(nics, bond);
    FirstSlaveExact(other, bond);
    assert forall n :: n in nics <==> n in other by {
      forall n
        ensures n in nics <==> n in other
      {
        assert n in nics <==> n in multiset(nics);
        assert n in other <==> n in multiset(other);
      }
    }
    if FirstSlave(nics, bond).Ok? && FirstSlave(other, bond).Ok? {
      var a, b := FirstSlave(nics, bond).value, FirstSlave(other, bond).value;
      LexTotal(a.name, b.name);
      assert a.name == b.name;
    }
  }

  // ---------- the resolvers ----------

  /** `_get_interface_by_name` */
  function ByName(nics: seq<Nic>, name: string): Option<Nic> {
    if nics == [] then None else if nics[0].name == name then Some(nics[0]) else ByName(nics[1..], name)
  }

  /** The device that a vlan tags: its name up to the first dot. */
  function BaseName(name: string): string {
    Split(name, '.')[0]
  }

  function Base(nics: seq<Nic>, vlan: Nic): Option<Nic> {
    ByName(nics, BaseName(vlan.name))
  }

  /** The first interface on a bridge. */
  function Port(nics: seq<Nic>, bridge: Nic): Option<Nic> {
    if nics == [] then None
    else if nics[0].kind != Bridge && nics[0].bridge == Some(bridge.name) then Some(nics[0])
    else Port(nics[1..], bridge)
  }

  /** The interface carrying a network. */
  function Carrier(nics: seq<Nic>, network: string): Option<Nic> {
    if nics == [] then None
    else if nics[0].network == Some(network) then Some(nics[0])
    else Carrier(nics[1..], network)
  }

  function SlaveName(nics: seq<Nic>, bond: Nic): Result<Option<string>, Crash> {
    match FirstSlave(nics, bond)
    case Err(e) => Err(e)
    case Ok(s) => Ok(Some(s.name))
  }

  /** `_get_bridge_matching_nic(...).device_name` */
  function BridgeNicName(nics: seq<Nic>, bridge: Nic): Result<Option<string>, Crash> {
    match Port(nics, bridge)
    case None => Err(AttributeError)
    case Some(port) =>
      match port.kind
      case Eth => Ok(Some(port.name))
      case Bond => SlaveName(nics, port)
      case Vlan =>
        (match Base(nics, port)
         case None => Err(AttributeError)
         case Some(base) =>
           if base.kind == Eth then Ok(Some(base.name))
           else if base.kind == Bond then SlaveName(nics, base)
           else Err(AttributeError))
      case Bridge => Err(AttributeError)
  }

  /** `_get_matching_nic_name` */
  function MatchingNicName(nics: seq<Nic>, network: string): Result<Option<string>, Crash> {
    match Carrier(nics, network)
    case None => Ok(None)
    case Some(c) =>
      match c.kind
      case Bridge => BridgeNicName(nics, c)
      case Vlan =>
        (match Base(nics, c)
         case None => Err(AttributeError)
         case Some(base) => if base.kind == Bond then SlaveName(nics, base) else Ok(Some(base.name)))
      case Bond => SlaveName(nics, c)
      case Eth => Ok(Some(c.name))
  }

  /** `_get_bond_macaddress` */
  function BondMac(nics: seq<Nic>, bond: Nic): Option<string> {
    if Slaves(nics, bond) == [] then None else Slaves(nics, bond)[0].mac
  }

  /** `_get_bridge_macaddress` */
  function BridgeMac(nics: seq<Nic>, bridge: Nic): Result<Option<string>, Crash> {
    match Port(nics, bridge)
    case None => Ok(None)
    case Some(port) =>
      match port.kind
      case Eth => Ok(port.mac)
      case Bond => Ok(BondMac(nics, port))
      case Vlan =>
        (match Base(nics, port)
         case None => Err(AttributeError)
         case Some(base) =>
           if base.kind == Eth then Ok(base.mac)
           else if base.kind == Bond then Ok(BondMac(nics, base))
           else Ok(None))
      case Bridge => Ok(None)
  }

  /** `_find_mac` */
  function FindMac(nics: seq<Nic>, name: Option<string>): Result<Option<string>, Crash> {
    if name.None? then Ok(None)
    else
      match ByName(nics, name.value)
      case None => Ok(None)
      case Some(found) =>
        var nic := if found.kind == Vlan then Base(nics, found) else Some(found);
        match nic
        case None => Err(AttributeError)
        case Some(n) =>
          if n.kind == Bond then Ok(BondMac(nics, n))
          else if n.kind == Bridge then BridgeMac(nics, n)
          else if n.kind == Eth then Ok(n.mac)
          else Ok(None)
  }

  // ---------- agreement ----------

  lemma {:induction false} ByNameFinds(nics: seq<Nic>, i: nat)
    requires UniqueNames(nics) && i < |nics|
    ensures ByName(nics, nics[i].name) == Some(nics[i])
  {
    if i > 0 {
      ByNameFinds(nics[1..], i - 1);
    }
  }

  lemma {:induction false} ByNameIn(nics: seq<Nic>, name: string)
    ensures ByName(nics, name).Some? ==> ByName(nics, name).value in nics && ByName(nics, name).value.name == name
  {
    if nics != [] {
      ByNameIn(nics[1..], name);
    }
  }

  lemma {:induction false} PortIn(nics: seq<Nic>, bridge: Nic)
    ensures Port(nics, bridge).Some? ==> Port(nics, bridge).value in nics && Port(nics, bridge).value.kind != Bridge
  {
    if nics != [] {
      PortIn(nics[1..], bridge);
    }
  }

  predicate OnBridge(n: Nic, bridge: Nic) {
    n.kind != Bridge && n.bridge == Some(bridge.name)
  }

  /** `i` is the least place with an interface on the bridge. */
  ghost predicate FirstOn(nics: seq<Nic>, bridge: Nic, i: nat) {
    i < |nics| && OnBridge(nics[i], bridge) && forall j | 0 <= j < i :: !OnBridge(nics[j], bridge)
  }

  /** The port of a bridge is the first interface on it, and None if there is none. */
  lemma {:induction false} PortExact(nics: seq<Nic>, bridge: Nic)
    ensures Port(nics, bridge) == None <==> forall n | n in nics :: !OnBridge(n, bridge)
    ensures forall i: nat | FirstOn(nics, bridge, i) :: Port(nics, bridge) == Some(nics[i])
  {
    if nics != [] {
      PortExact(nics[1..], bridge);
      assert nics[0] in nics && forall n | n in nics[1..] :: n in nics;
      assert forall n | n in nics :: n == nics[0] || n in nics[1..];
      forall i: nat | FirstOn(nics, bridge, i)
        ensures Port(nics, bridge) == Some(nics[i])
      {
        if i > 0 {
          assert !OnBridge(nics[0], bridge);
          assert FirstOn(nics[1..], bridge, i - 1);
        }
      }
    }
  }

  /** The carrier of a network is the first interface with it, and None if there is none. */
  lemma {:induction false} CarrierExact(nics: seq<Nic>, network: string)
    ensures Carrier(nics, network) == None <==> forall n | n in nics :: n.network != Some(network)
    ensures forall i | 0 <= i < |nics| && nics[i].network == Some(network)
              && (forall j | 0 <= j < i :: nics[j].network != Some(network)) :: Carrier(nics, network) == Some(nics[i])
  {
    if nics != [] {
      CarrierExact(nics[1..], network);
      assert forall n :: n in nics <==> n == nics[0] || n in nics[1..];
      forall i | 0 <= i < |nics| && nics[i].network == Some(network)
                 && (forall j | 0 <= j < i :: nics[j].network != Some(network))
        ensures Carrier(nics, network) == Some(nics[i])
      {
        if i > 0 {
          assert nics[0].network != Some(network);
          assert forall j | 0 <= j < i - 1 :: nics[1..][j].network != Some(network) by {
            assert forall j | 0 <= j < i - 1 :: nics[1..][j] == nics[j + 1];
          }
        }
      }
    }
  }

  lemma {:induction false} CarrierIn(nics: seq<Nic>, network: string)
    ensures Carrier(nics, network).Some? ==>
      Carrier(nics, network).value in nics && Carrier(nics, network).value.network == Some(network)
  {
    if nics != [] {
      CarrierIn(nics[1..], network);
    }
  }

  lemma NamedFinds(nics: seq<Nic>, n: Nic)
    requires UniqueNames(nics) && n in nics
    ensures ByName(nics, n.name) == Some(n)
  {
    var i :| 0 <= i < |nics| && nics[i] == n;
    ByNameFinds(nics, i);
  }

  /** The MAC of the slave that the name resolver picks is the MAC of the bond. */
  lemma SlaveMac(nics: seq<Nic>, bond: Nic)
    requires UniqueNames(nics) && FirstSlave(nics, bond).Ok?
    ensures FindMac(nics, Some(FirstSlave(nics, bond).value.name)) == Ok(BondMac(nics, bond))
  {
    FirstSlaveExact(nics, bond);
    NamedFinds(nics, FirstSlave(nics, bond).value);
  }

  lemma BridgeNicMac(nics: seq<Nic>, bridge: Nic)
    requires UniqueNames(nics) && BridgeNicName(nics, bridge).Ok?
    ensures FindMac(nics, BridgeNicName(nics, bridge).value) == BridgeMac(nics, bridge)
  {
    PortIn(nics, bridge);
    var port := Port(nics, bridge).value;
    match port.kind {
      case Eth => NamedFinds(nics, port);
      case Bond => SlaveMac(nics, port);
      case Vlan =>
        ByNameIn(nics, BaseName(port.name));
        var base := Base(nics, port).value;
        if base.kind == Eth {
          NamedFinds(nics, base);
        } else {
          SlaveMac(nics, base);
        }
    }
  }

  /**
   * The resolvers commute: whenever the name resolver returns a name, the MAC of that name is the MAC
   * of the interface carrying the network. Only unique device names are needed.
   */
  lemma ResolversAgree(nics: seq<Nic>, network: string)
    requires UniqueNames(nics) && Carrier(nics, network).Some? && MatchingNicName(nics, network).Ok?
    ensures FindMac(nics, MatchingNicName(nics, network).value)
            == FindMac(nics, Some(Carrier(nics, network).value.name))
  {
    CarrierIn(nics, network);
    var c := Carrier(nics, network).value;
    NamedFinds(nics, c);
    match c.kind {
      case Bridge => BridgeNicMac(nics, c);
      case Vlan =>
        ByNameIn(nics, BaseName(c.name));
        var base := Base(nics, c).value;
        if base.kind == Bond {
          SlaveMac(nics, base);
        } else if base.kind == Vlan {
          // A vlan that tags a vlan: neither resolver looks further than the first.
          VlanHasNoMac(nics, c, base);
        } else {
          NamedFinds(nics, base);
        }
      case Bond => SlaveMac(nics, c);
      case Eth =>
    }
  }

  /** The part of a name before its first dot has no dot, so it is its own base. */
  lemma BaseNameTwice(name: string)
    ensures BaseName(BaseName(name)) == BaseName(name)
  {
    assert Split(name, '.')[0] in Split(name, '.');
    SplitWhole(BaseName(name), '.');
  }

  lemma VlanHasNoMac(nics: seq<Nic>, vlan: Nic, base: Nic)
    requires UniqueNames(nics) && vlan in nics && vlan.kind == Vlan
    requires Base(nics, vlan) == Some(base) && base.kind == Vlan
    ensures FindMac(nics, Some(vlan.name)) == Ok(None) && FindMac(nics, Some(base.name)) == Ok(None)
  {
    ByNameIn(nics, BaseName(vlan.name));
    NamedFinds(nics, vlan);
    NamedFinds(nics, base);
    BaseNameTwice(vlan.name);
  }

  // ---------- which interface that is ----------

  /** The slave of the bond with the least name. */
  ghost predicate IsLeastSlave(nics: seq<Nic>, bond: Nic, s: Nic) {
    && s in nics && s.kind == Eth && s.live && s.master == Some(bond.name)
    && forall n | n in nics && n.kind == Eth && n.live && n.master == Some(bond.name) :: !LexLess(n.name, s.name)
  }

  /** The vlan's name is that of the base, or goes on after it with a dot. */
  predicate Tags(vlan: Nic, base: Nic) {
    '.' !in base.name && (vlan.name == base.name || base.name + "." <= vlan.name)
  }

  /** The name is that of an interface that is itself one to boot from, or of the least slave of a bond. */
  ghost predicate NamesBootNic(nics: seq<Nic>, n: Nic, name: string) {
    if n.kind == Bond then exists s :: IsLeastSlave(nics, n, s) && name == s.name else name == n.name
  }

  ghost predicate NamesTagged(nics: seq<Nic>, vlan: Nic, name: string) {
    exists base | base in nics :: Tags(vlan, base) && NamesBootNic(nics, base, name)
  }

  ghost predicate NamesPort(nics: seq<Nic>, bridge: Nic, name: string) {
    exists i: nat :: FirstOn(nics, bridge, i)
      && if nics[i].kind == Vlan then NamesTagged(nics, nics[i], name) else NamesBootNic(nics, nics[i], name)
  }

  lemma LeastSlave(nics: seq<Nic>, bond: Nic)
    requires FirstSlave(nics, bond).Ok?
    ensures IsLeastSlave(nics, bond, FirstSlave(nics, bond).value)
  {
    FirstSlaveExact(nics, bond);
    var s := FirstSlave(nics, bond).value;
    forall n | n in nics && IsSlave(bond, n)
      ensures !LexLess(n.name, s.name)
    {
      LexTotal(n.name, s.name);
    }
  }

  lemma {:induction false} FirstField(name: string)
    ensures Split(name, '.')[0] == name || Split(name, '.')[0] + "." <= name
  {
    if name != "" && name[0] != '.' {
      FirstField(name[1..]);
      var rest := Split(name[1..], '.')[0];
      assert name == [name[0]] + name[1..];
      assert Split(name, '.')[0] == [name[0]] + rest;
      if rest + "." <= name[1..] {
        assert [name[0]] + rest + "." <= name;
      }
    }
  }

  lemma BaseTagged(nics: seq<Nic>, vlan: Nic)
    requires Base(nics, vlan).Some?
    ensures Base(nics, vlan).value in nics && Tags(vlan, Base(nics, vlan).value)
  {
    ByNameIn(nics, BaseName(vlan.name));
    FirstField(vlan.name);
    assert Split(vlan.name, '.')[0] in Split(vlan.name, '.');
  }

  lemma {:induction false} PortAt(nics: seq<Nic>, bridge: Nic) returns (i: nat)
    requires Port(nics, bridge).Some?
    ensures FirstOn(nics, bridge, i) && Port(nics, bridge) == Some(nics[i])
  {
    if nics[0].kind != Bridge && nics[0].bridge == Some(bridge.name) {
      i := 0;
    } else {
      i := PortAt(nics[1..], bridge);
      i := i + 1;
      assert forall j | 0 < j < i :: nics[j] == nics[1..][j - 1];
    }
  }

  lemma BridgeNicExact(nics: seq<Nic>, bridge: Nic)
    requires BridgeNicName(nics, bridge).Ok?
    ensures BridgeNicName(nics, bridge).value.Some? && NamesPort(nics, bridge, BridgeNicName(nics, bridge).value.value)
  {
    var i := PortAt(nics, bridge);
    var port := nics[i];
    match port.kind {
      case Eth =>
      case Bond => LeastSlave(nics, port);
      case Vlan =>
        BaseTagged(nics, port);
        var base := Base(nics, port).value;
        if base.kind == Bond {
          LeastSlave(nics, base);
        }
        assert NamesBootNic(nics, base, BridgeNicName(nics, bridge).value.value);
    }
  }

  /**
   * The name that is found for a network carried by `c`: the eth itself, the least slave of the bond, what
   * the vlan tags or its least slave, or the same for the first interface on the bridge.
   */
  lemma NameExact(nics: seq<Nic>, network: string, c: Nic)
    requires Carrier(nics, network) == Some(c) && MatchingNicName(nics, network).Ok?
    ensures MatchingNicName(nics, network).value.Some?
    ensures var name := MatchingNicName(nics, network).value.value;
      match c.kind
      case Eth => name == c.name
      case Bond => NamesBootNic(nics, c, name)
      case Vlan => NamesTagged(nics, c, name)
      case Bridge => NamesPort(nics, c, name)
  {
    match c.kind {
      case Eth =>
      case Bond => LeastSlave(nics, c);
      case Vlan =>
        BaseTagged(nics, c);
        var base := Base(nics, c).value;
        if base.kind == Bond {
          LeastSlave(nics, base);
        }
        assert NamesBootNic(nics, base, MatchingNicName(nics, network).value.value);
      case Bridge => BridgeNicExact(nics, c);
    }
  }

  /** No name is found only if nothing carries the network. */
  lemma NoName(nics: seq<Nic>, network: string)
    ensures MatchingNicName(nics, network) == Ok(None) <==> forall n | n in nics :: n.network != Some(network)
  {
    CarrierExact(nics, network);
    if Carrier(nics, network).Some? {
      NameResolvesIffGrounded(nics, network);
    }
  }

  /** The MAC of an eth is its own. */
  lemma EthMac(nics: seq<Nic>, n: Nic)
    requires UniqueNames(nics) && n in nics && n.kind == Eth
    ensures FindMac(nics, Some(n.name)) == Ok(n.mac)
  {
    NamedFinds(nics, n);
  }

  // ---------- when the name resolver works ----------

  ghost predicate HasSlave(nics: seq<Nic>, bond: Nic) {
    exists n | n in nics :: IsSlave(bond, n)
  }

  /** Following the topology from `c` leads to an eth, a bond with a slave, or whatever a vlan tags. */
  ghost predicate Grounded(nics: seq<Nic>, c: Nic) {
    match c.kind
    case Eth => true
    case Bond => HasSlave(nics, c)
    case Vlan => Base(nics, c).Some? && (Base(nics, c).value.kind == Bond ==> HasSlave(nics, Base(nics, c).value))
    case Bridge =>
      Port(nics, c).Some? &&
      var port := Port(nics, c).value;
      match port.kind
      case Eth => true
      case Bond => HasSlave(nics, port)
      case Vlan =>
        Base(nics, port).Some? &&
        (Base(nics, port).value.kind == Eth ||
         (Base(nics, port).value.kind == Bond && HasSlave(nics, Base(nics, port).value)))
      case Bridge => false
  }

  /** The name resolver raises exactly when the topology under the carrier is not grounded. */
  lemma NameResolvesIffGrounded(nics: seq<Nic>, network: string)
    requires Carrier(nics, network).Some?
    ensures MatchingNicName(nics, network).Ok? <==> Grounded(nics, Carrier(nics, network).value)
    ensures MatchingNicName(nics, network).Ok? ==> MatchingNicName(nics, network).value.Some?
  {
    var c := Carrier(nics, network).value;
    FirstSlaveExact(nics, c);
    PortIn(nics, c);
    if Base(nics, c).Some? {
      FirstSlaveExact(nics, Base(nics, c).value);
    }
    if Port(nics, c).Some? {
      var port := Port(nics, c).value;
      FirstSlaveExact(nics, port);
      if Base(nics, port).Some? {
        FirstSlaveExact(nics, Base(nics, port).value);
      }
    }
  }

  /** The bond whose first slave would be taken, if following the topology from `c` leads to a bond. */
  ghost predicate LeadsToBond(nics: seq<Nic>, c: Nic, bond: Nic) {
    match c.kind
    case Eth => false
    case Bond => bond == c
    case Vlan => Base(nics, c) == Some(bond) && bond.kind == Bond
    case Bridge =>
      Port(nics, c).Some? &&
      var port := Port(nics, c).value;
      (port.kind == Bond && bond == port) || (port.kind == Vlan && Base(nics, port) == Some(bond) && bond.kind == Bond)
  }

  /** When it raises: IndexError for a bond without slaves, AttributeError where something is missing on the way. */
  lemma NameErrorExact(nics: seq<Nic>, network: string)
    requires MatchingNicName(nics, network).Err?
    ensures Carrier(nics, network).Some?
    ensures MatchingNicName(nics, network) == Err(IndexError) <==>
            exists bond :: LeadsToBond(nics, Carrier(nics, network).value, bond)
  {
    var c := Carrier(nics, network).value;
    PortIn(nics, c);
    if c.kind == Bond {
      assert LeadsToBond(nics, c, c);
    } else if c.kind == Vlan && Base(nics, c).Some? {
      assert LeadsToBond(nics, c, Base(nics, c).value);
    } else if c.kind == Bridge && Port(nics, c).Some? {
      var port := Port(nics, c).value;
      if port.kind == Bond {
        assert LeadsToBond(nics, c, port);
      } else if port.kind == Vlan && Base(nics, port).Some? && Base(nics, port).value.kind == Bond {
        assert LeadsToBond(nics, c, Base(nics, port).value);
      }
    }
  }

  /** What is returned is a physical interface, except for a vlan that tags a bridge or another vlan. */
  lemma NameIsPhysical(nics: seq<Nic>, network: string)
    requires UniqueNames(nics) && Carrier(nics, network).Some? && MatchingNicName(nics, network).Ok?
    ensures var c := Carrier(nics, network).value;
      (exists n | n in nics :: n.kind == Eth && MatchingNicName(nics, network).value == Some(n.name)) <==>
      !(c.kind == Vlan && Base(nics, c).value.kind in {Bridge, Vlan})
  {
    CarrierIn(nics, network);
    var c := Carrier(nics, network).value;
    NameResolvesIffGrounded(nics, network);
    var name := MatchingNicName(nics, network).value.value;
    match c.kind {
      case Eth =>
      case Bond => FirstSlaveExact(nics, c);
      case Vlan =>
        ByNameIn(nics, BaseName(c.name));
        FirstSlaveExact(nics, Base(nics, c).value);
      case Bridge =>
        PortIn(nics, c);
        var port := Port(nics, c).value;
        FirstSlaveExact(nics, port);
        if port.kind == Vlan {
          ByNameIn(nics, BaseName(port.name));
          FirstSlaveExact(nics, Base(nics, port).value);
        }
    }
  }
}
