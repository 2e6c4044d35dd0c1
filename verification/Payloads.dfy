// Small payloads whose normalization is known.
module Payloads {
  import opened Wrappers
  import opened RenderData
  import opened Interfaces
  import N = Nat
  import S = ServiceLans
  import Decimal
  import Sorting
  import Validate
  import opened Normalization

  // ---- payloads of interfaces alone ----

  function OnlyInterfaces(entries: RawInterfaces): Root {
    Root(entries, [], Absent)
  }

  function OnlySection(section: InterfacesSection): Data {
    Data(section, [], ServiceSection([], false, 0))
  }

  lemma NoRules()
    ensures N.Outcome(Ok([]), [])
  {
  }

  lemma NoLans()
    ensures S.IsResult([], [])
  {
    assert S.IsOrdering([], []);
    assert S.Records([]) == [];
  }

  // Without static addresses there is nothing else to normalize.
  lemma SectionNormalizes(section: InterfacesSection, entries: RawInterfaces, ports: PortMap)
    requires IsSection(section, entries, ports) && NoFault(entries, ports, |entries|) && section.inputs == []
    ensures IsNormalized(OnlySection(section), OnlyInterfaces(entries), ports)
  {
    NoRules();
    NoLans();
    var s := S.Ssh(false, 0);
    assert S.NormalizeSsh(Absent) == Some(s);
  }

  // ---- entries ----

  const PORTS: PortMap := map["lan" := ["eth0"], "right" := ["eth1"], "both" := ["eth0", "eth1"]]

  lemma PortsValid()
    ensures ValidPorts(PORTS)
  {
    assert Validate.IsToken("eth0", false) && Validate.IsToken("eth1", false);
  }

  function Entry(
    name: string, role: string, selector: string, subnet: string, vlan: Option<Decimal.Int64>): RawInterface {
    RawInterface(name, role, [[selector]], RawIpv4("dynamic", RawDhcp(Absent, Absent, Absent), subnet), vlan)
  }

  lemma OneSelector(e: RawInterface, selector: string)
    requires e.ethernet == [[selector]] && selector in PORTS
    ensures PortSet(e, PORTS) == Sorting.Elements(PORTS[selector])
  {
    assert selector in e.ethernet[0];
    assert Selected([selector], PORTS) == Sorting.Elements(PORTS[selector]);
    assert [selector] in e.ethernet;
  }

  // ---- a plain entry and two VLANs on its ports ----

  ghost predicate Trio(entries: seq<RawInterface>, ports: PortMap) {
    && |entries| == 3 && IsDownstream(entries[0]) && IsVif(entries[1]) && IsVif(entries[2])
    && entries[0].name != "" && AllDynamic(entries)
    && PortSet(entries[1], ports) <= PortSet(entries[0], ports)
    && PortSet(entries[2], ports) <= PortSet(entries[0], ports)
  }

  predicate AllDynamic(entries: seq<RawInterface>) {
    forall e | e in entries :: e.ipv4.addressing == "dynamic"
  }

  lemma TrioIndices(entries: seq<RawInterface>, p: RawInterface -> bool)
    requires |entries| == 3
    ensures Indices(entries, 3, p)
      == (if p(entries[0]) then [0] else []) + (if p(entries[1]) then [1] else []) + if p(entries[2]) then [2] else []
  {
    IndicesGrow(entries, 0, p);
    IndicesGrow(entries, 1, p);
    IndicesGrow(entries, 2, p);
  }

  ghost function TwoVifs(entries: seq<RawInterface>, ports: PortMap): seq<Vif>
    requires |entries| == 3 && IsVif(entries[1]) && IsVif(entries[2])
  {
    [VifOf(entries[1], ports), VifOf(entries[2], ports)]
  }

  lemma TrioLinks(entries: RawInterfaces, ports: PortMap)
    requires Trio(entries, ports)
    ensures Uplinks(entries, 3, ports) == [] && Downlinks(entries, 3, ports) == [BridgeOf(entries[0], ports, 1)]
  {
    TrioIndices(entries, IsUpstream);
    TrioIndices(entries, IsDownstream);
  }

  lemma TrioVifs(entries: RawInterfaces, ports: PortMap)
    requires Trio(entries, ports)
    ensures Vifs(entries, 3, ports) == TwoVifs(entries, ports)
  {
    TrioIndices(entries, IsVif);
  }

  lemma TrioInputs(entries: RawInterfaces, ports: PortMap)
    requires Trio(entries, ports)
    ensures Inputs(entries, 3) == []
  {
    TrioIndices(entries, IsService);
  }

  ghost function TrioBridge(entries: seq<RawInterface>, ports: PortMap): Bridge
    requires Trio(entries, ports)
  {
    var bare, vifs := BridgeOf(entries[0], ports, 1), TwoVifs(entries, ports);
    bare.(members := Sorting.Listing(Sorting.Elements(bare.members) + Members(vifs)), vifs := vifs)
  }

  lemma TrioBridges(entries: RawInterfaces, ports: PortMap)
    requires Trio(entries, ports) && !IdsAscend(VifOf(entries[2], ports), VifOf(entries[1], ports))
    ensures BridgesAre([TrioBridge(entries, ports)], entries, ports)
  {
    TrioLinks(entries, ports);
    TrioVifs(entries, ports);
  }

  // Every port is described by the plain entry.
  ghost function TrioEthernets(entries: seq<RawInterface>, ports: PortMap): seq<Ethernet>
    requires Trio(entries, ports)
  {
    var names := Sorting.Listing(PortSet(entries[0], ports));
    seq(|names|, i requires 0 <= i < |names| => Ethernet(names[i], entries[0].name))
  }

  lemma FirstDescribes(entries: seq<RawInterface>, ports: PortMap, port: string, vlan: bool)
    requires |entries| == 3 && (vlan ==> !IsVif(entries[0]))
    requires forall j | 1 <= j < 3 :: !Describes(entries[j], ports, port, vlan)
    ensures FirstName(entries, 3, ports, port, vlan)
      == if Describes(entries[0], ports, port, vlan) then Some(entries[0].name) else None
  {
    FirstNameExact(entries, 3, ports, port, vlan);
    assert forall i: nat :: IsFirst(entries, 3, ports, port, vlan, i) ==> i == 0;
  }

  lemma TrioNames(entries: seq<RawInterface>, ports: PortMap, port: string)
    requires Trio(entries, ports)
    ensures DescriptionOf(entries, 3, ports, port)
      == if port in PortSet(entries[0], ports) then Some(entries[0].name) else None
  {
    FirstDescribes(entries, ports, port, false);
    if port !in PortSet(entries[0], ports) {
      FirstDescribes(entries, ports, port, true);
    }
  }

  lemma TrioDescribed(entries: seq<RawInterface>, ports: PortMap)
    requires Trio(entries, ports)
    ensures EthernetsAre(TrioEthernets(entries, ports), entries, ports)
  {
    var listed := TrioEthernets(entries, ports);
    var names := Sorting.Listing(PortSet(entries[0], ports));
    Sorting.ListingShape(PortSet(entries[0], ports));
    assert Names(listed) == names;
    forall port, d
      ensures Ethernet(port, d) in listed <==> DescriptionOf(entries, |entries|, ports, port) == Some(d)
    {
      TrioNames(entries, ports, port);
      EthernetListed(names, listed, entries[0].name, port, d);
    }
  }

  lemma EthernetListed(names: seq<string>, listed: seq<Ethernet>, text: string, port: string, d: string)
    requires |listed| == |names| && forall i | 0 <= i < |names| :: listed[i] == Ethernet(names[i], text)
    ensures Ethernet(port, d) in listed <==> port in names && d == text
  {
    if port in names && d == text {
      var i :| 0 <= i < |names| && names[i] == port;
      assert listed[i] == Ethernet(port, d);
    }
  }

  ghost function TrioSection(entries: RawInterfaces, ports: PortMap): InterfacesSection
    requires Trio(entries, ports)
  {
    InterfacesSection([TrioBridge(entries, ports)], TrioEthernets(entries, ports), [])
  }

  lemma TrioNormalizes(entries: RawInterfaces, ports: PortMap)
    requires Trio(entries, ports) && !IdsAscend(VifOf(entries[2], ports), VifOf(entries[1], ports))
    ensures IsSection(TrioSection(entries, ports), entries, ports)
  {
    TrioBridges(entries, ports);
    TrioDescribed(entries, ports);
    TrioInputs(entries, ports);
  }

  // ---- three entries without fault ----

  predicate FitName(name: string) {
    name != "" && Validate.IsDescription(name)
  }

  predicate FitSubnet(subnet: string) {
    subnet != "" && Validate.IsToken(subnet, true)
  }

  function ThreeEntries(
    base: string, first: string, second: string, id: Decimal.Int64, left: string, right: string): RawInterfaces {
    [Entry("home", "downstream", base, "", None),
     Entry("guest", "downstream", first, left, Some(id)),
     Entry("guest", "downstream", second, right, Some(id))]
  }

  // An entry without fault, on the ports of one selector.
  ghost predicate Fits(e: RawInterface, vlan: bool, selected: set<string>) {
    && Fault(e, PORTS).None? && PortSet(e, PORTS) == selected && e.name != "" && e.ipv4.addressing == "dynamic"
    && (if vlan then IsVif(e) else IsDownstream(e))
  }

  lemma EntryFits(name: string, selector: string, subnet: string, vlan: Option<Decimal.Int64>)
    requires FitName(name) && selector in PORTS && PORTS[selector] != []
    requires vlan.Some? ==> vlan.value > 0 && FitSubnet(subnet)
    ensures Fits(Entry(name, "downstream", selector, subnet, vlan), vlan.Some?, Sorting.Elements(PORTS[selector]))
  {
    var e := Entry(name, "downstream", selector, subnet, vlan);
    OneSelector(e, selector);
    assert PORTS[selector][0] in PortSet(e, PORTS);
  }

  lemma NamesFit()
    ensures FitName("home") && FitName("guest")
  {
  }

  lemma ThreeFit(base: string, first: string, second: string, id: Decimal.Int64, left: string, right: string)
    requires base in PORTS && first in PORTS && second in PORTS
    requires PORTS[base] != [] && PORTS[first] != [] && PORTS[second] != []
    requires Sorting.Elements(PORTS[first]) + Sorting.Elements(PORTS[second]) <= Sorting.Elements(PORTS[base])
    requires id > 0 && FitSubnet(left) && FitSubnet(right)
    ensures var entries := ThreeEntries(base, first, second, id, left, right);
      Trio(entries, PORTS) && NoFault(entries, PORTS, 3)
  {
    NamesFit();
    EntryFits("home", base, "", None);
    EntryFits("guest", first, left, Some(id));
    EntryFits("guest", second, right, Some(id));
    FitTrio(
      ThreeEntries(base, first, second, id, left, right),
      Sorting.Elements(PORTS[base]), Sorting.Elements(PORTS[first]), Sorting.Elements(PORTS[second]));
  }

  lemma FitTrio(entries: seq<RawInterface>, base: set<string>, first: set<string>, second: set<string>)
    requires |entries| == 3 && first + second <= base
    requires Fits(entries[0], false, base) && Fits(entries[1], true, first) && Fits(entries[2], true, second)
    ensures Trio(entries, PORTS) && NoFault(entries, PORTS, 3)
  {
  }
}
