// Normalization of interfaces[]: internal/normalize/interface.go.
module Interfaces {
  import opened Wrappers
  import opened RenderData
  import Text
  import Decimal
  import Sorting
  import Validate

  datatype Reason =
    | BadName | NoPorts | VlanWithoutSubnet | BadSubnet | StaticWithoutSubnet
    | MissingAddressing | UnsupportedAddressing | SecondUpstream

  datatype NormalizeError = At(index: nat, reason: Reason) | MissingDownstream

  // ---- one entry ----

  datatype Kind = Ignored | Upstream | Downstream | Vlan

  predicate IsVlan(e: RawInterface) {
    e.vlan.Some? && e.vlan.value > 0
  }

  // Where an entry goes: nowhere, to br0, to a downstream bridge, to a VIF.
  function KindOf(e: RawInterface): Kind {
    if e.role == "upstream" then (if IsVlan(e) then Ignored else Upstream)
    else if e.role == "downstream" then (if IsVlan(e) then Vlan else Downstream)
    else Ignored
  }

  ghost function Selected(selectors: seq<string>, ports: PortMap): set<string> {
    set selector, port | selector in selectors && selector in ports && port in ports[selector] :: port
  }

  ghost function AllSelected(ethernet: seq<seq<string>>, ports: PortMap): set<string> {
    set eth, port | eth in ethernet && port in Selected(eth, ports) :: port
  }

  // The ports that an entry's selectors are mapped to.
  ghost function PortSet(e: RawInterface, ports: PortMap): set<string> {
    AllSelected(e.ethernet, ports)
  }

  // resolveInterfaceAddress
  function ResolveAddress(ipv4: RawIpv4): Result<string, Reason> {
    if ipv4.addressing == "dynamic" then Ok("dhcp")
    else if ipv4.addressing == "static" then
      if ipv4.subnet == "" then Err(StaticWithoutSubnet)
      else if !Validate.IsToken(ipv4.subnet, true) then Err(BadSubnet)
      else Ok(ipv4.subnet)
    else if ipv4.addressing == "" then Err(MissingAddressing)
    else Err(UnsupportedAddressing)
  }

  // What is wrong with an entry by itself.
  ghost function Fault(e: RawInterface, ports: PortMap): Option<Reason> {
    if e.role != "upstream" && e.role != "downstream" then None
    else if !Validate.IsDescription(e.name) then Some(BadName)
    else if PortSet(e, ports) == {} then Some(NoPorts)
    else
      match KindOf(e)
      case Ignored => None
      case Vlan =>
        if e.ipv4.subnet == "" then Some(VlanWithoutSubnet)
        else if !Validate.IsToken(e.ipv4.subnet, true) then Some(BadSubnet)
        else None
      case _ =>
        match ResolveAddress(e.ipv4)
        case Ok(_) => None
        case Err(reason) => Some(reason)
  }

  ghost function FaultAt(entries: seq<RawInterface>, ports: PortMap, i: nat): Option<Reason>
    requires i < |entries|
  {
    if Fault(entries[i], ports).Some? then Fault(entries[i], ports)
    else if IsUpstream(entries[i]) && Indices(entries, i, IsUpstream) != [] then Some(SecondUpstream)
    else None
  }

  // ---- all entries ----

  predicate IsUpstream(e: RawInterface) {
    KindOf(e).Upstream?
  }

  predicate IsDownstream(e: RawInterface) {
    KindOf(e).Downstream?
  }

  predicate IsVif(e: RawInterface) {
    KindOf(e).Vlan?
  }

  predicate IsService(e: RawInterface) {
    (IsDownstream(e) || IsVif(e)) && e.ipv4.addressing == "static"
  }

  // Where, among the first n entries, the ones with property p are, in order.
  function Indices(entries: seq<RawInterface>, n: nat, p: RawInterface -> bool): (r: seq<nat>)
    requires n <= |entries|
    ensures forall k | 0 <= k < |r| :: r[k] < n
  {
    if n == 0 then []
    else Indices(entries, n - 1, p) + if p(entries[n - 1]) then [n - 1] else []
  }

  // They are all of them, each once.
  lemma {:induction false} IndicesExact(entries: seq<RawInterface>, n: nat, p: RawInterface -> bool)
    requires n <= |entries|
    ensures forall i :: i in Indices(entries, n, p) <==> 0 <= i < n && p(entries[i])
    ensures forall j, k | 0 <= j < k < |Indices(entries, n, p)| :: Indices(entries, n, p)[j] < Indices(entries, n, p)[k]
  {
    if n > 0 {
      IndicesExact(entries, n - 1, p);
      var front, all := Indices(entries, n - 1, p), Indices(entries, n, p);
      assert all == front + if p(entries[n - 1]) then [n - 1] else [];
    }
  }

  function BridgeName(n: nat): string {
    "br" + Decimal.Itoa(n)
  }

  // The bridge of a non-VLAN entry before any VIF is attached.
  ghost function BridgeOf(e: RawInterface, ports: PortMap, n: nat): Bridge {
    Bridge(BridgeName(n), ResolveAddress(e.ipv4).GetOr(""), e.name, Sorting.Listing(PortSet(e, ports)), [])
  }

  ghost function Uplinks(entries: seq<RawInterface>, n: nat, ports: PortMap): seq<Bridge>
    requires n <= |entries|
  {
    var at := Indices(entries, n, IsUpstream);
    seq(|at|, k requires 0 <= k < |at| => BridgeOf(entries[at[k]], ports, 0))
  }

  // br1, br2, ... in input order
  ghost function Downlinks(entries: seq<RawInterface>, n: nat, ports: PortMap): seq<Bridge>
    requires n <= |entries|
  {
    var at := Indices(entries, n, IsDownstream);
    seq(|at|, k requires 0 <= k < |at| => BridgeOf(entries[at[k]], ports, k + 1))
  }

  ghost function VifOf(e: RawInterface, ports: PortMap): Vif
    requires IsVif(e)
  {
    Vif(e.vlan.value, e.ipv4.subnet, e.name, Sorting.Listing(PortSet(e, ports)))
  }

  ghost function Vifs(entries: seq<RawInterface>, n: nat, ports: PortMap): seq<Vif>
    requires n <= |entries|
  {
    IndicesExact(entries, n, IsVif);
    var at := Indices(entries, n, IsVif);
    seq(|at|, k requires 0 <= k < |at| => assert at[k] in at; VifOf(entries[at[k]], ports))
  }

  // serviceLANInputFromRaw
  function InputOf(e: RawInterface, i: Index): ServiceLanInput {
    ServiceLanInput(i, e.name, e.ipv4.subnet, e.ipv4.dhcp, IsVif(e), e.vlan.GetOr(0))
  }

  function Inputs(entries: RawInterfaces, n: nat): seq<ServiceLanInput>
    requires n <= |entries|
  {
    var at := Indices(entries, n, IsService);
    seq(|at|, k requires 0 <= k < |at| => InputOf(entries[at[k]], at[k]))
  }

  // ---- ethernet descriptions ----

  // An entry that describes a port, as a VLAN or as a base interface.
  ghost predicate Describes(e: RawInterface, ports: PortMap, port: string, vlan: bool) {
    e.name != "" && port in PortSet(e, ports) && if vlan then IsVif(e) else IsUpstream(e) || IsDownstream(e)
  }

  ghost function FirstName(entries: seq<RawInterface>, n: nat, ports: PortMap, port: string, vlan: bool): Option<string>
    requires n <= |entries|
  {
    if n == 0 then None
    else if FirstName(entries, n - 1, ports, port, vlan).Some? then FirstName(entries, n - 1, ports, port, vlan)
    else if Describes(entries[n - 1], ports, port, vlan) then Some(entries[n - 1].name)
    else None
  }

  ghost predicate IsFirst(entries: seq<RawInterface>, n: nat, ports: PortMap, port: string, vlan: bool, i: nat)
    requires n <= |entries|
  {
    && i < n && Describes(entries[i], ports, port, vlan)
    && forall j | 0 <= j < i :: !Describes(entries[j], ports, port, vlan)
  }

  // It is the name of the first describing entry.
  lemma {:induction false} FirstNameExact(entries: seq<RawInterface>, n: nat, ports: PortMap, port: string, vlan: bool)
    requires n <= |entries|
    ensures var r := FirstName(entries, n, ports, port, vlan);
      && (r.None? <==> forall i | 0 <= i < n :: !Describes(entries[i], ports, port, vlan))
      && (r.Some? ==> exists i: nat :: IsFirst(entries, n, ports, port, vlan, i) && r.value == entries[i].name)
  {
    if n > 0 {
      FirstNameExact(entries, n - 1, ports, port, vlan);
      if FirstName(entries, n - 1, ports, port, vlan).Some? {
        var i: nat :| IsFirst(entries, n - 1, ports, port, vlan, i)
              && FirstName(entries, n - 1, ports, port, vlan).value == entries[i].name;
        assert IsFirst(entries, n, ports, port, vlan, i);
      } else if Describes(entries[n - 1], ports, port, vlan) {
        assert IsFirst(entries, n, ports, port, vlan, n - 1);
      }
    }
  }

  // A base interface's name outranks a VLAN's.
  ghost function DescriptionOf(entries: seq<RawInterface>, n: nat, ports: PortMap, port: string): Option<string>
    requires n <= |entries|
  {
    var base := FirstName(entries, n, ports, port, false);
    if base.Some? then base else FirstName(entries, n, ports, port, true)
  }

  // ---- the resulting section ----

  function IdsAscend(a: Vif, b: Vif): bool {
    if a.id != b.id then a.id < b.id
    else if a.description != b.description then Text.Less(a.description, b.description)
    else Text.Less(Text.Join(a.members, ','), Text.Join(b.members, ','))
  }

  ghost function Members(vifs: seq<Vif>): set<string> {
    set v, m | v in vifs && m in v.members :: m
  }

  // The first downstream bridge, with every VIF on it and every VIF's ports among
  // its members.
  ghost predicate Carries(b: Bridge, bare: Bridge, vifs: seq<Vif>) {
    && b == bare.(members := b.members, vifs := b.vifs)
    && b.members == Sorting.Listing(Sorting.Elements(bare.members) + Members(vifs))
    && multiset(b.vifs) == multiset(vifs) && Sorting.Sorted(IdsAscend, b.vifs)
  }

  // br0, if there is an uplink, then the downstream bridges; all VIFs are on the first
  // of these.
  ghost predicate Laid(bridges: seq<Bridge>, ups: seq<Bridge>, downs: seq<Bridge>, vifs: seq<Vif>) {
    && |bridges| == |ups| + |downs| && |ups| <= 1
    && bridges[..|ups|] == ups
    && (vifs == [] ==> bridges[|ups|..] == downs)
    && (vifs != [] ==> downs != [] && bridges[|ups| + 1..] == downs[1..] && Carries(bridges[|ups|], downs[0], vifs))
  }

  ghost predicate BridgesAre(bridges: seq<Bridge>, entries: seq<RawInterface>, ports: PortMap) {
    var n := |entries|;
    Laid(bridges, Uplinks(entries, n, ports), Downlinks(entries, n, ports), Vifs(entries, n, ports))
  }

  function Names(ethernets: seq<Ethernet>): seq<string> {
    seq(|ethernets|, i requires 0 <= i < |ethernets| => ethernets[i].name)
  }

  ghost predicate EthernetsAre(ethernets: seq<Ethernet>, entries: seq<RawInterface>, ports: PortMap) {
    && Sorting.Ascending(Names(ethernets))
    && forall port, d :: Ethernet(port, d) in ethernets <==> DescriptionOf(entries, |entries|, ports, port) == Some(d)
  }

  ghost predicate IsSection(s: InterfacesSection, entries: RawInterfaces, ports: PortMap) {
    && BridgesAre(s.bridges, entries, ports)
    && EthernetsAre(s.ethernets, entries, ports)
    && s.inputs == Inputs(entries, |entries|)
  }

  ghost predicate NoFault(entries: seq<RawInterface>, ports: PortMap, n: nat)
    requires n <= |entries|
  {
    forall i | 0 <= i < n :: FaultAt(entries, ports, i).None?
  }

  ghost predicate Outcome(r: Result<InterfacesSection, NormalizeError>, entries: RawInterfaces, ports: PortMap) {
    match r
    case Ok(section) => NoFault(entries, ports, |entries|) && IsSection(section, entries, ports)
    case Err(At(i, reason)) =>
      i < |entries| && NoFault(entries, ports, i) && FaultAt(entries, ports, i) == Some(reason)
    case Err(MissingDownstream) =>
      && NoFault(entries, ports, |entries|)
      && Vifs(entries, |entries|, ports) != [] && Downlinks(entries, |entries|, ports) == []
  }

  // ---- the loops ----

  // The duplicate-free append of resolveMappedPorts and mergeSortedUniqueStrings.
  method AppendNew(list: seq<string>, seen: set<string>, values: seq<string>)
    returns (list': seq<string>, seen': set<string>)
    requires Sorting.Distinct(list) && seen == Sorting.Elements(list)
    ensures Sorting.Distinct(list') && seen' == Sorting.Elements(list') == seen + Sorting.Elements(values)
  {
    list', seen' := list, seen;
    for i := 0 to |values|
      invariant Sorting.Distinct(list') && seen' == Sorting.Elements(list') == seen + Sorting.Elements(values[..i])
    {
      assert Sorting.Elements(values[..i + 1]) == Sorting.Elements(values[..i]) + {values[i]};
      if values[i] in seen' {
        continue;
      }
      seen' := seen' + {values[i]};
      list' := list' + [values[i]];
    }
    assert values[..|values|] == values;
  }

  lemma SelectedGrows(selectors: seq<string>, ports: PortMap, j: nat)
    requires j < |selectors|
    ensures var more := if selectors[j] in ports then Sorting.Elements(ports[selectors[j]]) else {};
      Selected(selectors[..j + 1], ports) == Selected(selectors[..j], ports) + more
  {
    assert selectors[..j + 1] == selectors[..j] + [selectors[j]];
  }

  lemma AllSelectedGrows(ethernet: seq<seq<string>>, ports: PortMap, i: nat)
    requires i < |ethernet|
    ensures AllSelected(ethernet[..i + 1], ports) == AllSelected(ethernet[..i], ports) + Selected(ethernet[i], ports)
  {
    assert ethernet[..i + 1] == ethernet[..i] + [ethernet[i]];
  }

  // resolveMappedPorts; None stands for both of its errors.
  method ResolveMappedPorts(e: RawInterface, ports: PortMap) returns (r: Option<seq<string>>)
    ensures r == if PortSet(e, ports) == {} then None else Some(Sorting.Listing(PortSet(e, ports)))
  {
    if |e.ethernet| == 0 {
      return None;
    }
    var seen, found := {}, [];
    for i := 0 to |e.ethernet|
      invariant Sorting.Distinct(found) && seen == Sorting.Elements(found) == AllSelected(e.ethernet[..i], ports)
    {
      var selectors := e.ethernet[i];
      for j := 0 to |selectors|
        invariant Sorting.Distinct(found)
        invariant seen == Sorting.Elements(found)
          == AllSelected(e.ethernet[..i], ports) + Selected(selectors[..j], ports)
      {
        SelectedGrows(selectors, ports, j);
        if selectors[j] !in ports {
          continue;
        }
        found, seen := AppendNew(found, seen, ports[selectors[j]]);
      }
      assert selectors[..|selectors|] == selectors;
      AllSelectedGrows(e.ethernet, ports, i);
    }
    assert e.ethernet[..|e.ethernet|] == e.ethernet;
    if |found| == 0 {
      assert Sorting.Elements(found) == {};
      return None;
    }
    assert found[0] in Sorting.Elements(found);
    found := Sorting.SortStrings(found);
    return Some(found);
  }

  // mergeSortedUniqueStrings
  method MergeSortedUnique(left: seq<string>, right: seq<string>) returns (r: seq<string>)
    ensures r == Sorting.Listing(Sorting.Elements(left) + Sorting.Elements(right))
  {
    var merged, seen := AppendNew([], {}, left);
    assert seen == Sorting.Elements(left);
    merged, seen := AppendNew(merged, seen, right);
    r := Sorting.SortStrings(merged);
  }

  // ---- one more entry ----

  lemma IndicesGrow(entries: seq<RawInterface>, i: nat, p: RawInterface -> bool)
    requires i < |entries|
    ensures Indices(entries, i + 1, p) == Indices(entries, i, p) + if p(entries[i]) then [i] else []
  {
  }

  lemma UplinksGrow(entries: seq<RawInterface>, i: nat, ports: PortMap)
    requires i < |entries|
    ensures Uplinks(entries, i + 1, ports)
      == Uplinks(entries, i, ports) + if IsUpstream(entries[i]) then [BridgeOf(entries[i], ports, 0)] else []
  {
    IndicesGrow(entries, i, IsUpstream);
  }

  lemma DownlinksGrow(entries: seq<RawInterface>, i: nat, ports: PortMap)
    requires i < |entries|
    ensures var downs := Downlinks(entries, i, ports);
      Downlinks(entries, i + 1, ports)
      == downs + if IsDownstream(entries[i]) then [BridgeOf(entries[i], ports, |downs| + 1)] else []
  {
    IndicesGrow(entries, i, IsDownstream);
  }

  lemma VifsGrow(entries: seq<RawInterface>, i: nat, ports: PortMap)
    requires i < |entries|
    ensures Vifs(entries, i + 1, ports)
      == Vifs(entries, i, ports) + if IsVif(entries[i]) then [VifOf(entries[i], ports)] else []
  {
    IndicesGrow(entries, i, IsVif);
  }

  lemma InputsGrow(entries: RawInterfaces, i: nat)
    requires i < |entries|
    ensures Inputs(entries, i + 1)
      == Inputs(entries, i) + if IsService(entries[i]) then [InputOf(entries[i], i)] else []
  {
    IndicesGrow(entries, i, IsService);
  }

  // The variables of the main loop.
  datatype State = State(
    bridges: seq<Bridge>, pending: seq<Vif>, inputs: seq<ServiceLanInput>,
    hasUpstream: bool, first: int, downstreamCount: int)

  // What they say of the bridges.
  ghost predicate Links(st: State, ups: seq<Bridge>, downs: seq<Bridge>) {
    && multiset(st.bridges) == multiset(ups) + multiset(downs)
    && (st.hasUpstream <==> ups != []) && |ups| <= 1
    && st.downstreamCount == |downs|
    && (downs == [] ==> st.first == -1)
    && (downs != [] ==> 0 <= st.first < |st.bridges| && st.bridges[st.first] == downs[0])
  }

  // What they hold after n entries.
  ghost predicate Holds(st: State, entries: RawInterfaces, n: nat, ports: PortMap)
    requires n <= |entries|
  {
    && Links(st, Uplinks(entries, n, ports), Downlinks(entries, n, ports))
    && st.pending == Vifs(entries, n, ports) && st.inputs == Inputs(entries, n)
  }

  lemma AllGrow(entries: RawInterfaces, i: nat, ports: PortMap)
    requires i < |entries|
    ensures var e := entries[i];
      && Uplinks(entries, i + 1, ports)
        == Uplinks(entries, i, ports) + (if IsUpstream(e) then [BridgeOf(e, ports, 0)] else [])
      && Downlinks(entries, i + 1, ports) == Downlinks(entries, i, ports)
           + (if IsDownstream(e) then [BridgeOf(e, ports, |Downlinks(entries, i, ports)| + 1)] else [])
      && Vifs(entries, i + 1, ports) == Vifs(entries, i, ports) + (if IsVif(e) then [VifOf(e, ports)] else [])
      && Inputs(entries, i + 1) == Inputs(entries, i) + if IsService(e) then [InputOf(e, i)] else []
  {
    UplinksGrow(entries, i, ports);
    DownlinksGrow(entries, i, ports);
    VifsGrow(entries, i, ports);
    InputsGrow(entries, i);
  }

  lemma GrowIgnored(st: State, entries: RawInterfaces, i: nat, ports: PortMap)
    requires i < |entries| && Holds(st, entries, i, ports) && KindOf(entries[i]).Ignored?
    ensures Holds(st, entries, i + 1, ports)
  {
    NothingGrows(entries, i, ports);
  }

  lemma NothingGrows(entries: RawInterfaces, i: nat, ports: PortMap)
    requires i < |entries| && KindOf(entries[i]).Ignored?
    ensures Uplinks(entries, i + 1, ports) == Uplinks(entries, i, ports)
    ensures Downlinks(entries, i + 1, ports) == Downlinks(entries, i, ports)
    ensures Vifs(entries, i + 1, ports) == Vifs(entries, i, ports) && Inputs(entries, i + 1) == Inputs(entries, i)
  {
    AllGrow(entries, i, ports);
  }

  lemma GrowVif(st: State, entries: RawInterfaces, i: nat, ports: PortMap, more: seq<ServiceLanInput>)
    requires i < |entries| && Holds(st, entries, i, ports) && IsVif(entries[i])
    requires more == if IsService(entries[i]) then [InputOf(entries[i], i)] else []
    ensures Holds(
      st.(pending := st.pending + [VifOf(entries[i], ports)], inputs := st.inputs + more), entries, i + 1, ports)
  {
    VifGrows(entries, i, ports);
    InputsGrow(entries, i);
  }

  lemma VifGrows(entries: RawInterfaces, i: nat, ports: PortMap)
    requires i < |entries| && IsVif(entries[i])
    ensures Uplinks(entries, i + 1, ports) == Uplinks(entries, i, ports)
    ensures Downlinks(entries, i + 1, ports) == Downlinks(entries, i, ports)
    ensures Vifs(entries, i + 1, ports) == Vifs(entries, i, ports) + [VifOf(entries[i], ports)]
  {
    UplinksGrow(entries, i, ports);
    DownlinksGrow(entries, i, ports);
    VifsGrow(entries, i, ports);
  }

  lemma GrowUpstream(st: State, entries: RawInterfaces, i: nat, ports: PortMap, b: Bridge)
    requires i < |entries| && Holds(st, entries, i, ports) && IsUpstream(entries[i]) && !st.hasUpstream
    requires b == BridgeOf(entries[i], ports, 0)
    ensures Holds(st.(bridges := st.bridges + [b], hasUpstream := true), entries, i + 1, ports)
  {
    UplinkGrows(entries, i, ports);
  }

  lemma UplinkGrows(entries: RawInterfaces, i: nat, ports: PortMap)
    requires i < |entries| && IsUpstream(entries[i])
    ensures Uplinks(entries, i + 1, ports) == Uplinks(entries, i, ports) + [BridgeOf(entries[i], ports, 0)]
    ensures Downlinks(entries, i + 1, ports) == Downlinks(entries, i, ports)
    ensures Vifs(entries, i + 1, ports) == Vifs(entries, i, ports) && Inputs(entries, i + 1) == Inputs(entries, i)
  {
    AllGrow(entries, i, ports);
  }

  lemma DownlinkGrows(entries: RawInterfaces, i: nat, ports: PortMap)
    requires i < |entries| && IsDownstream(entries[i])
    ensures Uplinks(entries, i + 1, ports) == Uplinks(entries, i, ports)
    ensures var downs := Downlinks(entries, i, ports);
      Downlinks(entries, i + 1, ports) == downs + [BridgeOf(entries[i], ports, |downs| + 1)]
    ensures Vifs(entries, i + 1, ports) == Vifs(entries, i, ports)
  {
    UplinksGrow(entries, i, ports);
    DownlinksGrow(entries, i, ports);
    VifsGrow(entries, i, ports);
  }

  lemma GrowDownstream(
      st: State, entries: RawInterfaces, i: nat, ports: PortMap, b: Bridge, first: int, more: seq<ServiceLanInput>)
    requires i < |entries| && Holds(st, entries, i, ports) && IsDownstream(entries[i])
    requires b == BridgeOf(entries[i], ports, |Downlinks(entries, i, ports)| + 1)
    requires first == if st.first < 0 then |st.bridges| else st.first
    requires more == if IsService(entries[i]) then [InputOf(entries[i], i)] else []
    ensures Holds(
      st.(bridges := st.bridges + [b], first := first,
        downstreamCount := st.downstreamCount + 1, inputs := st.inputs + more),
      entries, i + 1, ports)
  {
    DownlinkGrows(entries, i, ports);
    InputsGrow(entries, i);
    OneMoreDownlink(st, Uplinks(entries, i, ports), Downlinks(entries, i, ports), b, first, st.inputs + more);
  }

  lemma OneMoreDownlink(
      st: State, ups: seq<Bridge>, downs: seq<Bridge>, b: Bridge, first: int, inputs: seq<ServiceLanInput>)
    requires Links(st, ups, downs) && first == if st.first < 0 then |st.bridges| else st.first
    ensures Links(
      st.(bridges := st.bridges + [b], first := first, downstreamCount := st.downstreamCount + 1, inputs := inputs),
      ups, downs + [b])
  {
  }

  // ---- descriptions, loop by loop ----

  datatype Description = Description(text: string, priority: int)

  const VLAN_PRIORITY := 0
  const BASE_PRIORITY := 1

  // updateEthernetDescription
  function Update(m: map<string, Description>, port: string, text: string, priority: int): map<string, Description> {
    if text == "" then m
    else if port !in m || priority > m[port].priority then m[port := Description(text, priority)]
    else m
  }

  ghost predicate DescribedAt(
      m: map<string, Description>, entries: seq<RawInterface>, n: nat, ports: PortMap, port: string)
    requires n <= |entries|
  {
    var base, vlan := FirstName(entries, n, ports, port, false), FirstName(entries, n, ports, port, true);
    && (base.Some? ==> port in m && m[port] == Description(base.value, BASE_PRIORITY))
    && (base.None? && vlan.Some? ==> port in m && m[port] == Description(vlan.value, VLAN_PRIORITY))
    && (base.None? && vlan.None? ==> port !in m)
  }

  ghost predicate Described(m: map<string, Description>, entries: seq<RawInterface>, n: nat, ports: PortMap)
    requires n <= |entries|
  {
    forall port :: DescribedAt(m, entries, n, ports, port)
  }

  method UpdateAll(m: map<string, Description>, portNames: seq<string>, text: string, priority: int)
    returns (m': map<string, Description>)
    ensures forall port :: Same(m', if port in portNames then Update(m, port, text, priority) else m, port)
  {
    m' := m;
    for k := 0 to |portNames|
      invariant forall port :: Same(m', if port in portNames[..k] then Update(m, port, text, priority) else m, port)
    {
      assert portNames[..k + 1] == portNames[..k] + [portNames[k]];
      assert Same(
        m', if portNames[k] in portNames[..k] then Update(m, portNames[k], text, priority) else m, portNames[k]);
      m' := Update(m', portNames[k], text, priority);
    }
    assert portNames[..|portNames|] == portNames;
  }

  predicate Same(m: map<string, Description>, m': map<string, Description>, port: string) {
    (port in m <==> port in m') && (port in m ==> m[port] == m'[port])
  }

  lemma DescribedGrows(
      m: map<string, Description>, m': map<string, Description>, entries: seq<RawInterface>, i: nat,
      ports: PortMap, priority: int)
    requires i < |entries| && Described(m, entries, i, ports)
    requires var e := entries[i];
      if IsVif(e) then priority == VLAN_PRIORITY else (IsUpstream(e) || IsDownstream(e)) && priority == BASE_PRIORITY
    requires forall port ::
      Same(m', if port in PortSet(entries[i], ports) then Update(m, port, entries[i].name, priority) else m, port)
    ensures Described(m', entries, i + 1, ports)
  {
    var n := i + 1;
    forall port
      ensures DescribedAt(m', entries, n, ports, port)
    {
      assert DescribedAt(m, entries, i, ports, port);
      assert Same(
        m', if port in PortSet(entries[i], ports) then Update(m, port, entries[i].name, priority) else m, port);
    }
  }

  lemma DescribedStays(m: map<string, Description>, entries: seq<RawInterface>, i: nat, ports: PortMap)
    requires i < |entries| && Described(m, entries, i, ports) && KindOf(entries[i]).Ignored?
    ensures Described(m, entries, i + 1, ports)
  {
    var n := i + 1;
    forall port
      ensures DescribedAt(m, entries, n, ports, port)
    {
      assert DescribedAt(m, entries, i, ports, port);
    }
  }

  lemma NoFaultGrows(entries: seq<RawInterface>, ports: PortMap, i: nat)
    requires i < |entries| && NoFault(entries, ports, i) && FaultAt(entries, ports, i).None?
    ensures NoFault(entries, ports, i + 1)
  {
  }

  // A VLAN entry becomes a pending VIF.
  method AddVlan(
      entries: RawInterfaces, ghost ports: PortMap, i: nat, st: State, eth: map<string, Description>,
      portNames: seq<string>)
    returns (reason: Option<Reason>, st': State, eth': map<string, Description>)
    requires i < |entries| && Holds(st, entries, i, ports) && Described(eth, entries, i, ports)
    requires IsVif(entries[i]) && Validate.IsDescription(entries[i].name)
    requires PortSet(entries[i], ports) != {} && portNames == Sorting.Listing(PortSet(entries[i], ports))
    ensures reason == FaultAt(entries, ports, i)
    ensures reason.None? ==> Holds(st', entries, i + 1, ports) && Described(eth', entries, i + 1, ports)
  {
    var entry := entries[i];
    st', eth' := st, eth;
    if entry.ipv4.subnet == "" {
      return Some(VlanWithoutSubnet), st', eth';
    }
    if !Validate.IsToken(entry.ipv4.subnet, true) {
      return Some(BadSubnet), st', eth';
    }
    Sorting.ListingShape(PortSet(entry, ports));
    var vif := Vif(entry.vlan.value, entry.ipv4.subnet, entry.name, portNames);
    var more := if entry.ipv4.addressing == "static" then [InputOf(entry, i)] else [];
    GrowVif(st, entries, i, ports, more);
    st' := st.(pending := st.pending + [vif], inputs := st.inputs + more);
    eth' := UpdateAll(eth, portNames, entry.name, VLAN_PRIORITY);
    DescribedGrows(eth, eth', entries, i, ports, VLAN_PRIORITY);
    return None, st', eth';
  }

  method AddUpstream(entries: RawInterfaces, ghost ports: PortMap, i: nat, st: State, portNames: seq<string>)
    returns (reason: Option<Reason>, st': State)
    requires i < |entries| && Holds(st, entries, i, ports) && IsUpstream(entries[i])
    requires Fault(entries[i], ports).None? && portNames == Sorting.Listing(PortSet(entries[i], ports))
    requires ResolveAddress(entries[i].ipv4).Ok?
    ensures reason == FaultAt(entries, ports, i)
    ensures reason.None? ==> Holds(st', entries, i + 1, ports)
  {
    if st.hasUpstream {
      return Some(SecondUpstream), st;
    }
    var entry := entries[i];
    var bridge := Bridge(BridgeName(0), ResolveAddress(entry.ipv4).value, entry.name, portNames, []);
    GrowUpstream(st, entries, i, ports, bridge);
    return None, st.(bridges := st.bridges + [bridge], hasUpstream := true);
  }

  method AddDownstream(entries: RawInterfaces, ghost ports: PortMap, i: nat, st: State, portNames: seq<string>)
    returns (st': State)
    requires i < |entries| && Holds(st, entries, i, ports) && IsDownstream(entries[i])
    requires Fault(entries[i], ports).None? && portNames == Sorting.Listing(PortSet(entries[i], ports))
    requires ResolveAddress(entries[i].ipv4).Ok?
    ensures Holds(st', entries, i + 1, ports)
  {
    var entry := entries[i];
    var name := BridgeName(st.downstreamCount + 1);
    var bridge := Bridge(name, ResolveAddress(entry.ipv4).value, entry.name, portNames, []);
    var bridges := st.bridges + [bridge];
    var first := if st.first < 0 then |bridges| - 1 else st.first;
    var more := if entry.ipv4.addressing == "static" then [InputOf(entry, i)] else [];
    GrowDownstream(st, entries, i, ports, bridge, first, more);
    return st.(
      bridges := bridges, first := first, downstreamCount := st.downstreamCount + 1, inputs := st.inputs + more);
  }

  // A non-VLAN entry becomes a bridge.
  method AddBase(
      entries: RawInterfaces, ghost ports: PortMap, i: nat, st: State, eth: map<string, Description>,
      portNames: seq<string>)
    returns (reason: Option<Reason>, st': State, eth': map<string, Description>)
    requires i < |entries| && Holds(st, entries, i, ports) && Described(eth, entries, i, ports)
    requires (IsUpstream(entries[i]) || IsDownstream(entries[i])) && Validate.IsDescription(entries[i].name)
    requires PortSet(entries[i], ports) != {} && portNames == Sorting.Listing(PortSet(entries[i], ports))
    ensures reason == FaultAt(entries, ports, i)
    ensures reason.None? ==> Holds(st', entries, i + 1, ports) && Described(eth', entries, i + 1, ports)
  {
    var entry := entries[i];
    Sorting.ListingShape(PortSet(entry, ports));
    reason, st', eth' := None, st, eth;
    var address := ResolveAddress(entry.ipv4);
    if address.Err? {
      return Some(address.error), st', eth';
    }
    if entry.role == "upstream" {
      reason, st' := AddUpstream(entries, ports, i, st, portNames);
      if reason.Some? {
        return;
      }
    } else {
      st' := AddDownstream(entries, ports, i, st, portNames);
    }
    eth' := UpdateAll(eth, portNames, entry.name, BASE_PRIORITY);
    DescribedGrows(eth, eth', entries, i, ports, BASE_PRIORITY);
  }

  // One round of the main loop.
  method AddEntry(entries: RawInterfaces, ports: PortMap, i: nat, st: State, eth: map<string, Description>)
    returns (reason: Option<Reason>, st': State, eth': map<string, Description>)
    requires i < |entries| && Holds(st, entries, i, ports) && Described(eth, entries, i, ports)
    ensures reason == FaultAt(entries, ports, i)
    ensures reason.None? ==> Holds(st', entries, i + 1, ports) && Described(eth', entries, i + 1, ports)
  {
    var entry := entries[i];
    reason, st', eth' := None, st, eth;
    if KindOf(entry).Ignored? {
      GrowIgnored(st, entries, i, ports);
      DescribedStays(eth, entries, i, ports);
    }
    if entry.role != "upstream" && entry.role != "downstream" {
      return;
    }
    if !Validate.IsDescription(entry.name) {
      return Some(BadName), st', eth';
    }
    var portNames := ResolveMappedPorts(entry, ports);
    if portNames.None? {
      return Some(NoPorts), st', eth';
    }
    if IsVlan(entry) {
      if entry.role != "downstream" {
        return;
      }
      reason, st', eth' := AddVlan(entries, ports, i, st, eth, portNames.value);
    } else {
      reason, st', eth' := AddBase(entries, ports, i, st, eth, portNames.value);
    }
  }

  // The main loop of normalizeInterfaces.
  method Collect(entries: RawInterfaces, ports: PortMap)
    returns (error: Option<NormalizeError>, st: State, eth: map<string, Description>)
    ensures error.Some? ==> error.value.At? && Outcome(Err(error.value), entries, ports)
    ensures error.None? ==>
      && NoFault(entries, ports, |entries|)
      && Holds(st, entries, |entries|, ports) && Described(eth, entries, |entries|, ports)
  {
    st, eth := State([], [], [], false, -1, 0), map[];
    for i := 0 to |entries|
      invariant NoFault(entries, ports, i)
      invariant Holds(st, entries, i, ports) && Described(eth, entries, i, ports)
    {
      var reason;
      reason, st, eth := AddEntry(entries, ports, i, st, eth);
      if reason.Some? {
        return Some(At(i, reason.value)), st, eth;
      }
      NoFaultGrows(entries, ports, i);
    }
    return None, st, eth;
  }

  // ---- after the loop ----

  lemma IdsAscendOrder()
    ensures Sorting.StrictWeakOrder(IdsAscend)
  {
    forall a, b
      ensures Sorting.Before(IdsAscend, a, b) ==> !Sorting.Before(IdsAscend, b, a)
    {
      IdsAscendPair(a, b);
    }
    forall a, b, c
      ensures Sorting.Before(IdsAscend, a, b) && Sorting.Before(IdsAscend, b, c) ==> Sorting.Before(IdsAscend, a, c)
      ensures !Sorting.Before(IdsAscend, a, b) && !Sorting.Before(IdsAscend, b, c) ==> !Sorting.Before(IdsAscend, a, c)
    {
      IdsAscendTriple(a, b, c);
    }
  }

  lemma IdsAscendPair(a: Vif, b: Vif)
    ensures !(IdsAscend(a, b) && IdsAscend(b, a))
  {
    Text.LessTotal(a.description, b.description);
    Text.LessTotal(Text.Join(a.members, ','), Text.Join(b.members, ','));
  }

  lemma IdsAscendTriple(a: Vif, b: Vif, c: Vif)
    ensures IdsAscend(a, b) && IdsAscend(b, c) ==> IdsAscend(a, c)
    ensures !IdsAscend(a, b) && !IdsAscend(b, c) ==> !IdsAscend(a, c)
  {
    Text.LessTotal(a.description, b.description);
    Text.LessTotal(b.description, c.description);
    Text.LessTotal(a.description, c.description);
    Sorting.StringTransitive(a.description, b.description, c.description);
    Sorting.StringTransitive(Text.Join(a.members, ','), Text.Join(b.members, ','), Text.Join(c.members, ','));
  }

  // The VIFs are put on the first downstream bridge.
  method AttachVifs(bare: Bridge, pending: seq<Vif>) returns (bridge: Bridge)
    requires pending != [] && bare.vifs == []
    ensures Carries(bridge, bare, pending)
  {
    IdsAscendOrder();
    var vifs := Sorting.Sort(pending, IdsAscend);
    Sorting.SameElements(vifs, pending);
    bridge := bare;
    for i := 0 to |vifs|
      invariant bridge == bare.(members := bridge.members, vifs := vifs[..i])
      invariant Sorting.Elements(bridge.members) == Sorting.Elements(bare.members) + Members(vifs[..i])
      invariant i > 0 ==> bridge.members == Sorting.Listing(Sorting.Elements(bare.members) + Members(vifs[..i]))
    {
      var members := MergeSortedUnique(bridge.members, vifs[i].members);
      MembersGrow(bare.members, bridge.members, vifs, i);
      Sorting.ListingShape(Sorting.Elements(bare.members) + Members(vifs[..i + 1]));
      bridge := bridge.(members := members, vifs := bridge.vifs + [vifs[i]]);
    }
    assert vifs[..|vifs|] == vifs;
    assert Members(vifs) == Members(pending);
  }

  lemma MembersGrow(bare: seq<string>, members: seq<string>, vifs: seq<Vif>, i: nat)
    requires i < |vifs| && Sorting.Elements(members) == Sorting.Elements(bare) + Members(vifs[..i])
    ensures vifs[..i + 1] == vifs[..i] + [vifs[i]]
    ensures Sorting.Elements(members) + Sorting.Elements(vifs[i].members)
      == Sorting.Elements(bare) + Members(vifs[..i + 1])
  {
    assert vifs[..i + 1] == vifs[..i] + [vifs[i]];
    assert Members(vifs[..i + 1]) == Members(vifs[..i]) + Sorting.Elements(vifs[i].members);
  }

  function BridgeOrder(name: string): int {
    if |name| < 3 || name[..2] != "br" then 0x4000_0000
    else Decimal.Atoi(name[2..]).GetOr(0x4000_0000)
  }

  lemma OrderOfName(n: nat)
    requires n <= Decimal.MAX_INT
    ensures BridgeOrder(BridgeName(n)) == n
  {
    Decimal.AtoiItoa(n);
    assert BridgeName(n)[2..] == Decimal.Itoa(n);
  }

  predicate InOrder(a: Bridge, b: Bridge) {
    BridgeOrder(a.name) < BridgeOrder(b.name)
  }

  // Bridges with the names of the final layout, in its order.
  ghost predicate Numbered(bridges: seq<Bridge>, offset: nat) {
    forall k | 0 <= k < |bridges| :: BridgeOrder(bridges[k].name) == offset + k
  }

  // Sorting them gives exactly that layout.
  method SortBridges(bridges: seq<Bridge>, ghost layout: seq<Bridge>, ghost offset: nat) returns (r: seq<Bridge>)
    requires multiset(bridges) == multiset(layout) && Numbered(layout, offset)
    ensures r == layout
  {
    r := Sorting.Sort(bridges, InOrder);
    forall x, y | x in layout && y in layout && x != y
      ensures InOrder(x, y) || InOrder(y, x)
    {
      var i :| 0 <= i < |layout| && layout[i] == x;
      var j :| 0 <= j < |layout| && layout[j] == y;
    }
    Sorting.SortUnique(InOrder, layout, r);
  }

  predicate NamesAscend(a: Ethernet, b: Ethernet) {
    Text.Less(a.name, b.name)
  }

  lemma NamesAscendOrder()
    ensures Sorting.StrictWeakOrder(NamesAscend)
  {
    forall a, b
      ensures Sorting.Before(NamesAscend, a, b) ==> !Sorting.Before(NamesAscend, b, a)
    {
      Text.LessTotal(a.name, b.name);
    }
    forall a, b, c
      ensures Sorting.Before(NamesAscend, a, b) && Sorting.Before(NamesAscend, b, c)
        ==> Sorting.Before(NamesAscend, a, c)
      ensures !Sorting.Before(NamesAscend, a, b) && !Sorting.Before(NamesAscend, b, c)
        ==> !Sorting.Before(NamesAscend, a, c)
    {
      Sorting.StringTransitive(a.name, b.name, c.name);
    }
  }

  ghost predicate ListsSome(list: seq<Ethernet>, eth: map<string, Description>, left: set<string>) {
    forall e :: e in list <==> e.name in eth && e.name !in left && eth[e.name].text == e.description
  }

  method ListEthernets(eth: map<string, Description>) returns (r: seq<Ethernet>)
    ensures Sorting.Ascending(Names(r)) && ListsSome(r, eth, {})
  {
    var list: seq<Ethernet> := [];
    // a map is iterated in an unspecified order
    var left := eth.Keys;
    while left != {}
      invariant left <= eth.Keys
      invariant Sorting.Distinct(list) && ListsSome(list, eth, left)
      decreases |left|
    {
      var name :| name in left;
      var e := Ethernet(name, eth[name].text);
      assert e !in list;
      list := list + [e];
      left := left - {name};
    }
    NamesAscendOrder();
    r := Sorting.Sort(list, NamesAscend);
    Sorting.SameElements(r, list);
    Sorting.DistinctPermuted(list, r);
    NamesDiffer(r, eth);
  }

  lemma NamesDiffer(r: seq<Ethernet>, eth: map<string, Description>)
    requires Sorting.Sorted(NamesAscend, r) && Sorting.Distinct(r) && ListsSome(r, eth, {})
    ensures Sorting.Ascending(Names(r))
  {
    forall i, j | 0 <= i < j < |r|
      ensures Text.Less(Names(r)[i], Names(r)[j])
    {
      assert r[i] in r && r[j] in r;
      Text.LessTotal(r[i].name, r[j].name);
    }
  }

  lemma {:induction false} IndicesFit(entries: seq<RawInterface>, n: nat, p: RawInterface -> bool)
    requires n <= |entries|
    ensures |Indices(entries, n, p)| <= n
  {
    if n > 0 {
      IndicesFit(entries, n - 1, p);
    }
  }

  lemma LinksNumbered(entries: RawInterfaces, ports: PortMap)
    ensures Numbered(Downlinks(entries, |entries|, ports), 1)
    ensures |Uplinks(entries, |entries|, ports)| <= 1 ==> Numbered(Uplinks(entries, |entries|, ports), 0)
  {
    var n := |entries|;
    IndicesFit(entries, n, IsDownstream);
    forall k | 0 <= k < |Downlinks(entries, n, ports)|
      ensures BridgeOrder(Downlinks(entries, n, ports)[k].name) == k + 1
    {
      OrderOfName(k + 1);
    }
    OrderOfName(0);
  }

  lemma LayoutNumbered(ups: seq<Bridge>, downs: seq<Bridge>)
    requires Numbered(ups, 0) && |ups| <= 1 && Numbered(downs, 1)
    ensures Numbered(ups + downs, 1 - |ups|)
  {
    forall k | 0 <= k < |ups + downs|
      ensures BridgeOrder((ups + downs)[k].name) == 1 - |ups| + k
    {
      if k >= |ups| {
        assert (ups + downs)[k] == downs[k - |ups|];
      }
    }
  }

  lemma LayoutMultiset(ups: seq<Bridge>, downs: seq<Bridge>, b: Bridge)
    requires downs != []
    ensures multiset(ups + ([b] + downs[1..])) == multiset(ups) + multiset(downs) - multiset{downs[0]} + multiset{b}
  {
    assert downs == [downs[0]] + downs[1..];
  }

  // Patches the first downstream bridge in place.
  method PatchFirst(
      bridges: seq<Bridge>, first: nat, pending: seq<Vif>, ghost ups: seq<Bridge>, ghost downs: seq<Bridge>)
    returns (bridges': seq<Bridge>, ghost downs': seq<Bridge>)
    requires multiset(bridges) == multiset(ups) + multiset(downs) && pending != []
    requires downs != [] && first < |bridges| && bridges[first] == downs[0] && downs[0].vifs == []
    requires Numbered(downs, 1)
    ensures multiset(bridges') == multiset(ups + downs')
    ensures |downs'| == |downs| && downs'[1..] == downs[1..] && Carries(downs'[0], downs[0], pending)
    ensures Numbered(downs', 1)
  {
    var bridge := AttachVifs(bridges[first], pending);
    PatchedMultiset(bridges, first, ups, downs, bridge);
    StillNumbered(downs, bridge);
    bridges' := bridges[first := bridge];
    downs' := [bridge] + downs[1..];
  }

  lemma PatchedMultiset(bridges: seq<Bridge>, first: nat, ups: seq<Bridge>, downs: seq<Bridge>, b: Bridge)
    requires multiset(bridges) == multiset(ups) + multiset(downs)
    requires downs != [] && first < |bridges| && bridges[first] == downs[0]
    ensures multiset(bridges[first := b]) == multiset(ups + ([b] + downs[1..]))
  {
    Sorting.Replaced(bridges, first, b);
    LayoutMultiset(ups, downs, b);
  }

  lemma StillNumbered(downs: seq<Bridge>, b: Bridge)
    requires Numbered(downs, 1) && downs != [] && b.name == downs[0].name
    ensures Numbered([b] + downs[1..], 1)
  {
  }

  lemma IsLaid(ups: seq<Bridge>, downs: seq<Bridge>, bare: seq<Bridge>, vifs: seq<Vif>)
    requires |ups| <= 1
    requires if vifs == [] then downs == bare
      else |downs| == |bare| > 0 && downs[1..] == bare[1..] && Carries(downs[0], bare[0], vifs)
    ensures Laid(ups + downs, ups, bare, vifs)
  {
    assert downs != [] ==> (ups + downs)[|ups| + 1..] == downs[1..];
  }

  // The bridges after the VIFs are attached and everything is sorted.
  method LayOut(st: State, ghost ups: seq<Bridge>, ghost bare: seq<Bridge>) returns (r: Option<seq<Bridge>>)
    requires Links(st, ups, bare) && BareNames(ups, bare) && Numbered(ups, 0) && Numbered(bare, 1)
    ensures r.None? <==> st.pending != [] && bare == []
    ensures r.Some? ==> Laid(r.value, ups, bare, st.pending)
  {
    ghost var downs := bare;
    var bridges := st.bridges;
    if |st.pending| > 0 {
      if st.first < 0 {
        return None;
      }
      bridges, downs := PatchFirst(bridges, st.first, st.pending, ups, downs);
    }
    LayoutNumbered(ups, downs);
    bridges := SortBridges(bridges, ups + downs, 1 - |ups|);
    IsLaid(ups, downs, bare, st.pending);
    return Some(bridges);
  }

  method FinishBridges(entries: RawInterfaces, ghost ports: PortMap, st: State) returns (r: Option<seq<Bridge>>)
    requires Holds(st, entries, |entries|, ports)
    ensures r.None? <==> st.pending != [] && Downlinks(entries, |entries|, ports) == []
    ensures r.Some? ==> BridgesAre(r.value, entries, ports)
  {
    LinksNumbered(entries, ports);
    LinkNames(entries, ports);
    r := LayOut(st, Uplinks(entries, |entries|, ports), Downlinks(entries, |entries|, ports));
  }

  // normalizeInterfaces
  method NormalizeInterfaces(entries: RawInterfaces, ports: PortMap)
    returns (r: Result<InterfacesSection, NormalizeError>)
    ensures Outcome(r, entries, ports)
  {
    var error, st, eth := Collect(entries, ports);
    if error.Some? {
      return Err(error.value);
    }
    var bridges := FinishBridges(entries, ports, st);
    if bridges.None? {
      return Err(MissingDownstream);
    }
    var ethernets := ListEthernets(eth);
    EthernetsFinished(ethernets, eth, entries, ports);
    return Ok(InterfacesSection(bridges.value, ethernets, st.inputs));
  }

  lemma EthernetsFinished(r: seq<Ethernet>, eth: map<string, Description>, entries: seq<RawInterface>, ports: PortMap)
    requires Described(eth, entries, |entries|, ports)
    requires Sorting.Ascending(Names(r)) && ListsSome(r, eth, {})
    ensures EthernetsAre(r, entries, ports)
  {
    forall port, d
      ensures Ethernet(port, d) in r <==> DescriptionOf(entries, |entries|, ports, port) == Some(d)
    {
      assert DescribedAt(eth, entries, |entries|, ports, port);
    }
  }

  // ---- what a section is ----

  // The entries that become bridges: the uplink, then the others in input order.
  function Homes(entries: seq<RawInterface>): seq<nat> {
    Indices(entries, |entries|, IsUpstream) + Indices(entries, |entries|, IsDownstream)
  }

  // Which address an entry asks for: one from DHCP, or its own.
  ghost predicate AddressFits(ipv4: RawIpv4, address: string) {
    || (ipv4.addressing == "dynamic" && address == "dhcp")
    || (ipv4.addressing == "static" && address == ipv4.subnet && Validate.IsToken(address, true))
  }

  lemma AddressExactly(ipv4: RawIpv4, address: string)
    ensures ResolveAddress(ipv4) == Ok(address) <==> AddressFits(ipv4, address)
  {
  }

  // A bridge made from one entry: the entry's name and address, and as members its
  // ports and some others.
  ghost predicate Realizes(b: Bridge, e: RawInterface, ports: PortMap, others: set<string>) {
    && b.description == e.name && AddressFits(e.ipv4, b.address)
    && Sorting.Ascending(b.members) && forall m :: m in b.members <==> m in PortSet(e, ports) || m in others
  }

  // These are all entries of the two kinds, each once.
  lemma HomesExact(entries: seq<RawInterface>)
    ensures Sorting.Distinct(Homes(entries))
    ensures forall i ::
      i in Homes(entries) <==> 0 <= i < |entries| && (IsUpstream(entries[i]) || IsDownstream(entries[i]))
  {
    IndicesExact(entries, |entries|, IsUpstream);
    IndicesExact(entries, |entries|, IsDownstream);
    HomesDistinct(entries, Indices(entries, |entries|, IsUpstream), Indices(entries, |entries|, IsDownstream));
  }

  lemma HomeInRange(entries: seq<RawInterface>, k: nat)
    requires k < |Homes(entries)|
    ensures var i := Homes(entries)[k]; i < |entries| && (IsUpstream(entries[i]) || IsDownstream(entries[i]))
  {
    HomesExact(entries);
    assert Homes(entries)[k] in Homes(entries);
  }

  // Every non-VLAN entry is exactly one bridge, of its name, address and ports.  Only
  // br1 has other members: the ports of the VIFs.
  lemma BridgesConserved(bridges: seq<Bridge>, entries: RawInterfaces, ports: PortMap)
    requires BridgesAre(bridges, entries, ports) && NoFault(entries, ports, |entries|)
    ensures |bridges| == |Homes(entries)| && Sorting.Distinct(Homes(entries))
    ensures forall i ::
      i in Homes(entries) <==> 0 <= i < |entries| && (IsUpstream(entries[i]) || IsDownstream(entries[i]))
    ensures forall k | 0 <= k < |bridges| ::
      Realizes(bridges[k], entries[Homes(entries)[k]], ports, OtherMembers(bridges, entries, ports, k))
  {
    HomesExact(entries);
    forall k | 0 <= k < |bridges|
      ensures Realizes(bridges[k], entries[Homes(entries)[k]], ports, OtherMembers(bridges, entries, ports, k))
    {
      BridgeRealizes(bridges, entries, ports, k);
    }
  }

  ghost function OtherMembers(bridges: seq<Bridge>, entries: RawInterfaces, ports: PortMap, k: nat): set<string> {
    if k == |Uplinks(entries, |entries|, ports)| then Members(Vifs(entries, |entries|, ports)) else {}
  }

  lemma HomesDistinct(entries: seq<RawInterface>, ups: seq<nat>, downs: seq<nat>)
    requires forall i | i in ups :: 0 <= i < |entries| && IsUpstream(entries[i])
    requires forall i | i in downs :: 0 <= i < |entries| && IsDownstream(entries[i])
    requires forall j, k | 0 <= j < k < |ups| :: ups[j] < ups[k]
    requires forall j, k | 0 <= j < k < |downs| :: downs[j] < downs[k]
    ensures Sorting.Distinct(ups + downs)
  {
    forall j, k | 0 <= j < k < |ups + downs|
      ensures (ups + downs)[j] != (ups + downs)[k]
    {
      if j < |ups| <= k {
        assert ups[j] in ups && downs[k - |ups|] in downs;
      }
    }
  }

  lemma BridgeRealizes(bridges: seq<Bridge>, entries: RawInterfaces, ports: PortMap, k: nat)
    requires BridgesAre(bridges, entries, ports) && NoFault(entries, ports, |entries|) && k < |bridges|
    ensures Realizes(bridges[k], entries[Homes(entries)[k]], ports, OtherMembers(bridges, entries, ports, k))
  {
    var n := |entries|;
    HomeRealizes(entries, ports, k);
    HomeInRange(entries, k);
    LaidRealizes(
      bridges, Uplinks(entries, n, ports), Downlinks(entries, n, ports), Vifs(entries, n, ports), k,
      entries[Homes(entries)[k]], ports);
  }

  lemma HomeRealizes(entries: RawInterfaces, ports: PortMap, k: nat)
    requires NoFault(entries, ports, |entries|) && k < |Homes(entries)|
    ensures var ups, downs := Uplinks(entries, |entries|, ports), Downlinks(entries, |entries|, ports);
      && Homes(entries)[k] < |entries| && (k >= |ups| ==> k - |ups| < |downs|)
      && Realizes(if k < |ups| then ups[k] else downs[k - |ups|], entries[Homes(entries)[k]], ports, {})
  {
    var ups := |Uplinks(entries, |entries|, ports)|;
    HomeInRange(entries, k);
    HomeOf(entries, ports, k);
    Faultless(entries, ports, Homes(entries)[k]);
    BareRealizes(entries[Homes(entries)[k]], ports, if k < ups then 0 else k - ups + 1);
  }

  lemma Faultless(entries: seq<RawInterface>, ports: PortMap, i: nat)
    requires NoFault(entries, ports, |entries|) && i < |entries|
    ensures Fault(entries[i], ports).None?
  {
    assert FaultAt(entries, ports, i).None?;
  }

  // The description of a bridge, whether or not anything is wrong with the entries.
  lemma BridgeDescribed(bridges: seq<Bridge>, entries: RawInterfaces, ports: PortMap, k: nat)
    requires BridgesAre(bridges, entries, ports) && k < |bridges|
    ensures |bridges| == |Homes(entries)| && Homes(entries)[k] < |entries|
    ensures bridges[k].description == entries[Homes(entries)[k]].name
  {
    var n := |entries|;
    HomeInRange(entries, k);
    HomeOf(entries, ports, k);
    BridgeAt(bridges, Uplinks(entries, n, ports), Downlinks(entries, n, ports), Vifs(entries, n, ports), k);
  }

  lemma HomeOf(entries: RawInterfaces, ports: PortMap, k: nat)
    requires k < |Homes(entries)| && Homes(entries)[k] < |entries|
    ensures var ups, downs := Uplinks(entries, |entries|, ports), Downlinks(entries, |entries|, ports);
      var e := entries[Homes(entries)[k]];
      && (k < |ups| ==> ups[k] == BridgeOf(e, ports, 0))
      && (k >= |ups| ==> k - |ups| < |downs| && downs[k - |ups|] == BridgeOf(e, ports, k - |ups| + 1))
  {
  }

  lemma LaidRealizes(
    bridges: seq<Bridge>, ups: seq<Bridge>, downs: seq<Bridge>, vifs: seq<Vif>, k: nat, e: RawInterface, ports: PortMap)
    requires Laid(bridges, ups, downs, vifs) && k < |bridges|
    requires Realizes(if k < |ups| then ups[k] else downs[k - |ups|], e, ports, {})
    ensures Realizes(bridges[k], e, ports, if k == |ups| then Members(vifs) else {})
  {
    BridgeAt(bridges, ups, downs, vifs, k);
    if k == |ups| && vifs != [] {
      CarriesOthers(bridges[k], downs[0], vifs, e, ports);
    }
  }

  lemma BareRealizes(e: RawInterface, ports: PortMap, n: nat)
    requires Fault(e, ports).None? && (IsUpstream(e) || IsDownstream(e))
    ensures Realizes(BridgeOf(e, ports, n), e, ports, {})
  {
    Sorting.ListingShape(PortSet(e, ports));
    AddressExactly(e.ipv4, ResolveAddress(e.ipv4).GetOr(""));
  }

  lemma CarriesOthers(b: Bridge, bare: Bridge, vifs: seq<Vif>, e: RawInterface, ports: PortMap)
    requires Carries(b, bare, vifs) && Realizes(bare, e, ports, {})
    ensures Realizes(b, e, ports, Members(vifs))
  {
    Sorting.ListingShape(Sorting.Elements(bare.members) + Members(vifs));
  }

  // They are numbered in input order, and only br1 carries VIFs.
  lemma BridgesNumbered(bridges: seq<Bridge>, entries: RawInterfaces, ports: PortMap)
    requires BridgesAre(bridges, entries, ports)
    ensures |Uplinks(entries, |entries|, ports)| <= 1 && NamedInOrder(bridges, |Uplinks(entries, |entries|, ports)|)
  {
    var n := |entries|;
    LinkNames(entries, ports);
    LayoutNames(bridges, Uplinks(entries, n, ports), Downlinks(entries, n, ports), Vifs(entries, n, ports));
  }

  // The names count from br0 or br1 on, and only br1 has VIFs.
  ghost predicate NamedInOrder(bridges: seq<Bridge>, br1: nat)
    requires br1 <= 1
  {
    forall k | 0 <= k < |bridges| ::
      bridges[k].name == "br" + Decimal.Itoa(k + 1 - br1) && (k != br1 ==> bridges[k].vifs == [])
  }

  ghost predicate BareNames(ups: seq<Bridge>, downs: seq<Bridge>) {
    && (forall k | 0 <= k < |ups| :: ups[k].name == BridgeName(0) && ups[k].vifs == [])
    && (forall k | 0 <= k < |downs| :: downs[k].name == BridgeName(k + 1) && downs[k].vifs == [])
  }

  lemma LinkNames(entries: RawInterfaces, ports: PortMap)
    ensures BareNames(Uplinks(entries, |entries|, ports), Downlinks(entries, |entries|, ports))
  {
  }

  ghost predicate AscendingMembers(bridges: seq<Bridge>) {
    forall k | 0 <= k < |bridges| :: Sorting.Ascending(bridges[k].members)
  }

  lemma MembersAscend(entries: RawInterfaces, ports: PortMap)
    ensures AscendingMembers(Uplinks(entries, |entries|, ports))
    ensures AscendingMembers(Downlinks(entries, |entries|, ports))
  {
    forall e: RawInterface
      ensures Sorting.Ascending(Sorting.Listing(PortSet(e, ports)))
    {
      Sorting.ListingShape(PortSet(e, ports));
    }
  }

  // Every VLAN entry is exactly one VIF on br1, in ascending order, and its ports are
  // members of br1.
  lemma VifsConserved(bridges: seq<Bridge>, entries: RawInterfaces, ports: PortMap)
    requires BridgesAre(bridges, entries, ports)
    ensures var n := |entries|;
      var ups, downs, vifs := |Uplinks(entries, n, ports)|, |Downlinks(entries, n, ports)|, Vifs(entries, n, ports);
      && |vifs| == |Indices(entries, n, IsVif)|
      && (downs == 0 ==> vifs == [])
      && (downs > 0 ==> |bridges| > ups && AllOn(bridges[ups], vifs))
  {
    var n := |entries|;
    var ups, downs, vifs := Uplinks(entries, n, ports), Downlinks(entries, n, ports), Vifs(entries, n, ports);
    if vifs != [] {
      CarriesAll(bridges[|ups|], downs[0], vifs);
    } else if downs != [] {
      BridgeAt(bridges, ups, downs, vifs, |ups|);
      MembersAscend(entries, ports);
    }
  }

  lemma LayoutNames(bridges: seq<Bridge>, ups: seq<Bridge>, downs: seq<Bridge>, vifs: seq<Vif>)
    requires Laid(bridges, ups, downs, vifs) && BareNames(ups, downs)
    ensures NamedInOrder(bridges, |ups|)
  {
    forall k | 0 <= k < |bridges|
      ensures bridges[k].name == BridgeName(k + 1 - |ups|) && (k != |ups| ==> bridges[k].vifs == [])
    {
      BridgeAt(bridges, ups, downs, vifs, k);
    }
  }

  lemma BridgeAt(bridges: seq<Bridge>, ups: seq<Bridge>, downs: seq<Bridge>, vifs: seq<Vif>, k: nat)
    requires Laid(bridges, ups, downs, vifs) && k < |bridges|
    ensures k < |ups| ==> bridges[k] == ups[k]
    ensures k >= |ups| ==> bridges[k] == downs[k - |ups|].(members := bridges[k].members, vifs := bridges[k].vifs)
    ensures k >= |ups| && (k > |ups| || vifs == []) ==> bridges[k] == downs[k - |ups|]
  {
    if k < |ups| {
      assert bridges[k] == bridges[..|ups|][k];
    } else if vifs == [] {
      assert bridges[k] == bridges[|ups|..][k - |ups|];
    } else if k > |ups| {
      var j := k - |ups|;
      assert bridges[k] == bridges[|ups| + 1..][j - 1] == downs[1..][j - 1] == downs[j];
    }
  }

  ghost predicate AllOn(b: Bridge, vifs: seq<Vif>) {
    && multiset(b.vifs) == multiset(vifs)
    && (forall i, j | 0 <= i < j < |b.vifs| :: b.vifs[i].id <= b.vifs[j].id)
    && (forall v, m | v in b.vifs && m in v.members :: m in b.members)
    && Sorting.Ascending(b.members)
  }

  lemma CarriesAll(b: Bridge, bare: Bridge, vifs: seq<Vif>)
    requires Carries(b, bare, vifs)
    ensures AllOn(b, vifs)
  {
    Sorting.SameElements(b.vifs, vifs);
    Sorting.ListingShape(Sorting.Elements(bare.members) + Members(vifs));
    forall v, m | v in b.vifs && m in v.members
      ensures m in b.members
    {
      assert m in Members(vifs);
    }
  }

  // The list of ethernets does not depend on the order in which the map of
  // descriptions is iterated.
  lemma EthernetsUnique(a: seq<Ethernet>, b: seq<Ethernet>, entries: seq<RawInterface>, ports: PortMap)
    requires EthernetsAre(a, entries, ports) && EthernetsAre(b, entries, ports)
    ensures a == b
  {
    SameNames(a, b, entries, ports);
    SameNames(b, a, entries, ports);
    Sorting.AscendingUnique(Names(a), Names(b));
    forall i | 0 <= i < |Names(a)|
      ensures a[i] == b[i]
    {
      assert a[i].name == Names(a)[i] == Names(b)[i] == b[i].name;
      assert Ethernet(a[i].name, a[i].description) in a && Ethernet(b[i].name, b[i].description) in b;
    }
    assert |a| == |Names(a)| == |Names(b)| == |b|;
  }

  lemma SameNames(a: seq<Ethernet>, b: seq<Ethernet>, entries: seq<RawInterface>, ports: PortMap)
    requires EthernetsAre(a, entries, ports) && EthernetsAre(b, entries, ports)
    ensures forall x | x in Names(a) :: x in Names(b)
  {
    forall x | x in Names(a)
      ensures x in Names(b)
    {
      var i :| 0 <= i < |Names(a)| && Names(a)[i] == x;
      assert Ethernet(a[i].name, a[i].description) in a;
      var j :| 0 <= j < |b| && b[j] == Ethernet(a[i].name, a[i].description);
      assert Names(b)[j] == x;
    }
  }

  // Two results for the same input are equal unless two VIFs agree in id, description
  // and joined members.
  lemma SectionUnique(a: InterfacesSection, b: InterfacesSection, entries: RawInterfaces, ports: PortMap)
    requires IsSection(a, entries, ports) && IsSection(b, entries, ports)
    requires Sorting.TotalOn(IdsAscend, Vifs(entries, |entries|, ports))
    ensures a == b
  {
    EthernetsUnique(a.ethernets, b.ethernets, entries, ports);
    BridgesUnique(a.bridges, b.bridges, entries, ports);
  }

  lemma BridgesUnique(a: seq<Bridge>, b: seq<Bridge>, entries: RawInterfaces, ports: PortMap)
    requires BridgesAre(a, entries, ports) && BridgesAre(b, entries, ports)
    requires Sorting.TotalOn(IdsAscend, Vifs(entries, |entries|, ports))
    ensures a == b
  {
    var n := |entries|;
    LaidUnique(a, b, Uplinks(entries, n, ports), Downlinks(entries, n, ports), Vifs(entries, n, ports));
  }

  lemma LaidUnique(a: seq<Bridge>, b: seq<Bridge>, ups: seq<Bridge>, downs: seq<Bridge>, vifs: seq<Vif>)
    requires Laid(a, ups, downs, vifs) && Laid(b, ups, downs, vifs) && Sorting.TotalOn(IdsAscend, vifs)
    ensures a == b
  {
    var u := |ups|;
    if vifs == [] {
      assert a == a[..u] + a[u..] && b == b[..u] + b[u..];
    } else {
      VifsUnique(a[u], b[u], vifs);
      assert a == a[..u] + [a[u]] + a[u + 1..] && b == b[..u] + [b[u]] + b[u + 1..];
    }
  }

  lemma VifsUnique(a: Bridge, b: Bridge, vifs: seq<Vif>)
    requires multiset(a.vifs) == multiset(vifs) == multiset(b.vifs) && Sorting.TotalOn(IdsAscend, vifs)
    requires Sorting.Sorted(IdsAscend, a.vifs) && Sorting.Sorted(IdsAscend, b.vifs)
    ensures a.vifs == b.vifs
  {
    Sorting.SameElements(a.vifs, vifs);
    Sorting.SortUnique(IdsAscend, a.vifs, b.vifs);
  }
}
