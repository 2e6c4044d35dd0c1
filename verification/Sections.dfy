// What a normalized interfaces section says about the entries it is made from, in terms
// of the entries' own fields: internal/normalize/interface.go.
module Sections {
  import opened Wrappers
  import opened RenderData
  import opened Interfaces
  import Text
  import Sorting
  import Validate

  // ---- where an entry goes ----

  predicate Tagged(e: RawInterface) {
    e.vlan.Some? && e.vlan.value >= 1
  }

  predicate Taken(e: RawInterface) {
    e.role == "upstream" || e.role == "downstream"
  }

  // An untagged entry becomes a bridge, a tagged one a VIF if it is downstream.
  lemma KindExactly(e: RawInterface)
    ensures IsUpstream(e) <==> e.role == "upstream" && !Tagged(e)
    ensures IsDownstream(e) <==> e.role == "downstream" && !Tagged(e)
    ensures IsVif(e) <==> e.role == "downstream" && Tagged(e)
    ensures KindOf(e).Ignored? <==> !Taken(e) || (e.role == "upstream" && Tagged(e))
  {
  }

  // ---- which entries are accepted ----

  ghost predicate Mapped(e: RawInterface, ports: PortMap, port: string) {
    exists eth, selector :: eth in e.ethernet && selector in eth && selector in ports && port in ports[selector]
  }

  lemma MappedExactly(e: RawInterface, ports: PortMap, port: string)
    ensures port in PortSet(e, ports) <==> Mapped(e, ports, port)
  {
    if port in PortSet(e, ports) {
      var eth :| eth in e.ethernet && port in Selected(eth, ports);
      var selector :| selector in eth && selector in ports && port in ports[selector];
    }
    if Mapped(e, ports, port) {
      var eth, selector :| eth in e.ethernet && selector in eth && selector in ports && port in ports[selector];
      assert port in Selected(eth, ports);
    }
  }

  // Nothing is wrong with an entry: it is for neither side, or it can be described, has
  // a port, and has the address it needs.
  ghost predicate Conforms(e: RawInterface, ports: PortMap) {
    Taken(e) ==>
      && Validate.IsDescription(e.name)
      && (exists port :: Mapped(e, ports, port))
      && (if Tagged(e) then e.role == "downstream" ==> Validate.IsToken(e.ipv4.subnet, true)
          else exists address :: AddressFits(e.ipv4, address))
  }

  lemma SomePort(e: RawInterface, ports: PortMap)
    ensures PortSet(e, ports) != {} <==> exists port :: Mapped(e, ports, port)
  {
    if PortSet(e, ports) != {} {
      var port :| port in PortSet(e, ports);
      MappedExactly(e, ports, port);
    }
    if port :| Mapped(e, ports, port) {
      MappedExactly(e, ports, port);
    }
  }

  lemma SomeAddress(ipv4: RawIpv4)
    ensures ResolveAddress(ipv4).Ok? <==> exists address :: AddressFits(ipv4, address)
  {
    if ResolveAddress(ipv4).Ok? {
      AddressExactly(ipv4, ResolveAddress(ipv4).value);
    }
    if address :| AddressFits(ipv4, address) {
      AddressExactly(ipv4, address);
    }
  }

  lemma ConformsExactly(e: RawInterface, ports: PortMap)
    ensures Fault(e, ports).None? <==> Conforms(e, ports)
  {
    KindExactly(e);
    SomePort(e, ports);
    SomeAddress(e.ipv4);
  }

  // What is reported of an entry: its name, then its ports, then its address.
  lemma ReasonExactly(e: RawInterface, ports: PortMap)
    requires Taken(e)
    ensures Fault(e, ports) == Some(BadName) <==> !Validate.IsDescription(e.name)
    ensures Fault(e, ports) == Some(NoPorts) <==> Validate.IsDescription(e.name) && forall p :: !Mapped(e, ports, p)
    ensures var reached := Validate.IsDescription(e.name) && exists p :: Mapped(e, ports, p);
      && (Fault(e, ports) == Some(VlanWithoutSubnet) <==>
            reached && Tagged(e) && e.role == "downstream" && e.ipv4.subnet == "")
      && (Fault(e, ports) == Some(MissingAddressing) <==> reached && !Tagged(e) && e.ipv4.addressing == "")
      && (Fault(e, ports) == Some(UnsupportedAddressing) <==>
            reached && !Tagged(e) && e.ipv4.addressing !in {"", "static", "dynamic"})
      && (Fault(e, ports) == Some(StaticWithoutSubnet) <==>
            reached && !Tagged(e) && e.ipv4.addressing == "static" && e.ipv4.subnet == "")
  {
    KindExactly(e);
    SomePort(e, ports);
  }

  // All entries conform, one of them at most is the uplink, and VLANs have a bridge to
  // be on.
  ghost predicate AllConform(entries: seq<RawInterface>, ports: PortMap) {
    EachConforms(entries, ports) && OneUplink(entries) && VlansPlaced(entries)
  }

  ghost predicate EachConforms(entries: seq<RawInterface>, ports: PortMap) {
    forall i | 0 <= i < |entries| :: Conforms(entries[i], ports)
  }

  predicate IsUplink(e: RawInterface) {
    e.role == "upstream" && !Tagged(e)
  }

  ghost predicate OneUplink(entries: seq<RawInterface>) {
    forall i, j | 0 <= i < j < |entries| :: !(IsUplink(entries[i]) && IsUplink(entries[j]))
  }

  ghost predicate VlansPlaced(entries: seq<RawInterface>) {
    (exists i | 0 <= i < |entries| :: entries[i].role == "downstream" && Tagged(entries[i])) ==>
      exists j | 0 <= j < |entries| :: entries[j].role == "downstream" && !Tagged(entries[j])
  }

  lemma SomeIndex(entries: seq<RawInterface>, n: nat, p: RawInterface -> bool)
    requires n <= |entries|
    ensures Indices(entries, n, p) != [] <==> exists i | 0 <= i < n :: p(entries[i])
  {
    IndicesExact(entries, n, p);
    if Indices(entries, n, p) != [] {
      assert Indices(entries, n, p)[0] in Indices(entries, n, p);
    }
  }

  lemma FaultAtExactly(entries: seq<RawInterface>, ports: PortMap, i: nat)
    requires i < |entries|
    ensures FaultAt(entries, ports, i).None? <==> Conforms(entries[i], ports) && !SecondUplink(entries, i)
  {
    ConformsExactly(entries[i], ports);
    SomeIndex(entries, i, IsUpstream);
    forall j | 0 <= j <= i
      ensures IsUpstream(entries[j]) <==> IsUplink(entries[j])
    {
      KindExactly(entries[j]);
    }
  }

  ghost predicate SecondUplink(entries: seq<RawInterface>, i: nat)
    requires i < |entries|
  {
    IsUplink(entries[i]) && exists j | 0 <= j < i :: IsUplink(entries[j])
  }

  lemma NoFaultExactly(entries: seq<RawInterface>, ports: PortMap)
    ensures NoFault(entries, ports, |entries|) <==> EachConforms(entries, ports) && OneUplink(entries)
  {
    forall i | 0 <= i < |entries|
      ensures FaultAt(entries, ports, i).None? <==> Conforms(entries[i], ports) && !SecondUplink(entries, i)
    {
      FaultAtExactly(entries, ports, i);
    }
    OneUplinkExactly(entries);
  }

  lemma OneUplinkExactly(entries: seq<RawInterface>)
    ensures OneUplink(entries) <==> forall i | 0 <= i < |entries| :: !SecondUplink(entries, i)
  {
    if !OneUplink(entries) {
      var i, j :| 0 <= i < j < |entries| && IsUplink(entries[i]) && IsUplink(entries[j]);
      assert SecondUplink(entries, j);
    }
  }

  lemma PlacedExactly(entries: RawInterfaces, ports: PortMap)
    ensures VlansPlaced(entries)
      <==> (Vifs(entries, |entries|, ports) != [] ==> Downlinks(entries, |entries|, ports) != [])
  {
    SomeIndex(entries, |entries|, IsVif);
    SomeIndex(entries, |entries|, IsDownstream);
    forall i | 0 <= i < |entries|
      ensures IsVif(entries[i]) <==> entries[i].role == "downstream" && Tagged(entries[i])
      ensures IsDownstream(entries[i]) <==> entries[i].role == "downstream" && !Tagged(entries[i])
    {
      KindExactly(entries[i]);
    }
  }

  // Normalization succeeds exactly on such entries.
  lemma AcceptedExactly(r: Result<InterfacesSection, NormalizeError>, entries: RawInterfaces, ports: PortMap)
    requires Outcome(r, entries, ports)
    ensures r.Ok? <==> AllConform(entries, ports)
  {
    NoFaultExactly(entries, ports);
    PlacedExactly(entries, ports);
    match r
    case Ok(section) => VlansCarried(section.bridges, entries, ports);
    case Err(MissingDownstream) =>
    case Err(At(i, reason)) => assert FaultAt(entries, ports, i).Some?;
  }

  lemma VlansCarried(bridges: seq<Bridge>, entries: RawInterfaces, ports: PortMap)
    requires BridgesAre(bridges, entries, ports)
    ensures Vifs(entries, |entries|, ports) != [] ==> Downlinks(entries, |entries|, ports) != []
  {
  }

  // If it fails on an entry, that is the first one at fault.
  lemma FirstFaultExactly(r: Result<InterfacesSection, NormalizeError>, entries: RawInterfaces, ports: PortMap, i: nat)
    requires Outcome(r, entries, ports) && r.Err? && r.error.At? && r.error.index == i
    ensures i < |entries| && (!Conforms(entries[i], ports) || SecondUplink(entries, i))
    ensures forall j | 0 <= j < i :: Conforms(entries[j], ports) && !SecondUplink(entries, j)
    ensures r.error.reason == SecondUpstream <==> Conforms(entries[i], ports)
  {
    FaultAtExactly(entries, ports, i);
    ConformsExactly(entries[i], ports);
    forall j | 0 <= j < i
      ensures Conforms(entries[j], ports) && !SecondUplink(entries, j)
    {
      FaultAtExactly(entries, ports, j);
      assert FaultAt(entries, ports, j).None?;
    }
  }

  // ---- VIFs ----

  // A VIF made from one entry.
  ghost predicate VifRealizes(v: Vif, e: RawInterface, ports: PortMap) {
    && e.vlan == Some(v.id) && v.address == e.ipv4.subnet && v.description == e.name
    && Sorting.Ascending(v.members) && forall m :: m in v.members <==> Mapped(e, ports, m)
  }

  lemma VifRealized(e: RawInterface, ports: PortMap)
    requires IsVif(e)
    ensures VifRealizes(VifOf(e, ports), e, ports)
  {
    Sorting.ListingShape(PortSet(e, ports));
    forall m
      ensures m in VifOf(e, ports).members <==> Mapped(e, ports, m)
    {
      MappedExactly(e, ports, m);
    }
  }

  // The VIFs that br1 carries are one for every tagged downstream entry, with its id,
  // subnet, name and ports.
  lemma VifsExactly(entries: RawInterfaces, ports: PortMap)
    ensures var n := |entries|;
      var at, vifs := Indices(entries, n, IsVif), Vifs(entries, n, ports);
      && |vifs| == |at|
      && (forall i :: i in at <==> 0 <= i < n && entries[i].role == "downstream" && Tagged(entries[i]))
      && (forall j, k | 0 <= j < k < |at| :: at[j] < at[k])
      && (forall k | 0 <= k < |vifs| :: VifRealizes(vifs[k], entries[at[k]], ports))
  {
    var at := Indices(entries, |entries|, IsVif);
    IndicesExact(entries, |entries|, IsVif);
    forall i | 0 <= i < |entries|
      ensures IsVif(entries[i]) <==> entries[i].role == "downstream" && Tagged(entries[i])
    {
      KindExactly(entries[i]);
    }
    forall k | 0 <= k < |at|
      ensures VifRealizes(Vifs(entries, |entries|, ports)[k], entries[at[k]], ports)
    {
      assert at[k] in at;
      VifRealized(entries[at[k]], ports);
    }
  }

  // In order of id, then of name, then of joined ports.
  lemma VifOrder(b: Bridge, bare: Bridge, vifs: seq<Vif>, i: nat, j: nat)
    requires Carries(b, bare, vifs) && i < j < |b.vifs|
    ensures var v, w := b.vifs[i], b.vifs[j];
      && v.id <= w.id
      && (v.id == w.id ==> v.description == w.description || Text.Less(v.description, w.description))
      && (v.id == w.id && v.description == w.description ==>
            !Text.Less(Text.Join(w.members, ','), Text.Join(v.members, ',')))
  {
    Text.LessTotal(b.vifs[i].description, b.vifs[j].description);
    assert !IdsAscend(b.vifs[j], b.vifs[i]);
  }

  // ---- service inputs ----

  // They are the static downstream entries, tagged or not, in order, with their fields.
  lemma InputsExactly(entries: RawInterfaces)
    ensures var n := |entries|;
      var at, inputs := Indices(entries, n, IsService), Inputs(entries, n);
      && |inputs| == |at|
      && (forall i :: i in at <==>
            0 <= i < n && entries[i].role == "downstream" && entries[i].ipv4.addressing == "static")
      && (forall j, k | 0 <= j < k < |at| :: at[j] < at[k])
      && (forall k | 0 <= k < |inputs| :: at[k] < n && InputRealizes(inputs[k], entries[at[k]], at[k]))
  {
    var at := Indices(entries, |entries|, IsService);
    IndicesExact(entries, |entries|, IsService);
    forall i | 0 <= i < |entries|
      ensures IsService(entries[i]) <==> entries[i].role == "downstream" && entries[i].ipv4.addressing == "static"
    {
      KindExactly(entries[i]);
    }
    forall k | 0 <= k < |at|
      ensures InputRealizes(Inputs(entries, |entries|)[k], entries[at[k]], at[k])
    {
      assert at[k] in at;
      KindExactly(entries[at[k]]);
    }
  }

  predicate InputRealizes(input: ServiceLanInput, e: RawInterface, i: nat) {
    && input.index == i && input.name == e.name && input.subnet == e.ipv4.subnet && input.dhcp == e.ipv4.dhcp
    && (input.isVlan <==> Tagged(e)) && (Tagged(e) ==> e.vlan == Some(input.vlanId))
  }

  // ---- ethernet descriptions ----

  // The first entry, tagged or not, that has a name for a port.
  ghost predicate NamesPort(entries: seq<RawInterface>, ports: PortMap, port: string, tagged: bool, i: nat) {
    && i < |entries| && entries[i].name != "" && Mapped(entries[i], ports, port)
    && (if tagged then entries[i].role == "downstream" && Tagged(entries[i])
        else Taken(entries[i]) && !Tagged(entries[i]))
  }

  ghost predicate NamesFirst(entries: seq<RawInterface>, ports: PortMap, port: string, tagged: bool, i: nat) {
    NamesPort(entries, ports, port, tagged, i) && forall j | 0 <= j < i :: !NamesPort(entries, ports, port, tagged, j)
  }

  lemma NamesExactly(entries: seq<RawInterface>, ports: PortMap, port: string, tagged: bool, i: nat)
    requires i < |entries|
    ensures Describes(entries[i], ports, port, tagged) <==> NamesPort(entries, ports, port, tagged, i)
  {
    KindExactly(entries[i]);
    MappedExactly(entries[i], ports, port);
  }

  lemma FirstNameExactly(entries: seq<RawInterface>, ports: PortMap, port: string, tagged: bool, d: string)
    ensures FirstName(entries, |entries|, ports, port, tagged) == Some(d)
      <==> exists i: nat :: NamesFirst(entries, ports, port, tagged, i) && entries[i].name == d
  {
    var n := |entries|;
    FirstNameExact(entries, n, ports, port, tagged);
    forall i | 0 <= i < n
      ensures Describes(entries[i], ports, port, tagged) <==> NamesPort(entries, ports, port, tagged, i)
    {
      NamesExactly(entries, ports, port, tagged, i);
    }
    if FirstName(entries, n, ports, port, tagged).Some? {
      var i: nat :| IsFirst(entries, n, ports, port, tagged, i)
        && FirstName(entries, n, ports, port, tagged).value == entries[i].name;
      assert NamesFirst(entries, ports, port, tagged, i);
      forall k: nat | NamesFirst(entries, ports, port, tagged, k)
        ensures k == i
      {
      }
    }
  }

  lemma NeverNamed(entries: seq<RawInterface>, ports: PortMap, port: string, tagged: bool)
    ensures FirstName(entries, |entries|, ports, port, tagged).None?
      <==> forall i: nat :: !NamesPort(entries, ports, port, tagged, i)
  {
    FirstNameExact(entries, |entries|, ports, port, tagged);
    forall i | 0 <= i < |entries|
      ensures Describes(entries[i], ports, port, tagged) <==> NamesPort(entries, ports, port, tagged, i)
    {
      NamesExactly(entries, ports, port, tagged, i);
    }
  }

  // A port is described by the first untagged entry that has a name for it, and only if
  // there is none by the first tagged one.
  lemma EthernetsExactly(section: InterfacesSection, entries: RawInterfaces, ports: PortMap, port: string, d: string)
    requires IsSection(section, entries, ports)
    ensures Ethernet(port, d) in section.ethernets <==> (
      || (exists i: nat :: NamesFirst(entries, ports, port, false, i) && entries[i].name == d)
      || ((forall i: nat :: !NamesPort(entries, ports, port, false, i))
          && exists i: nat :: NamesFirst(entries, ports, port, true, i) && entries[i].name == d))
  {
    FirstNameExactly(entries, ports, port, false, d);
    FirstNameExactly(entries, ports, port, true, d);
    NeverNamed(entries, ports, port, false);
  }
}
