// When the normalized section is determined by the input, and when the sorting
// algorithm may choose: internal/normalize/interface.go:172-196.
module Ties {
  import opened RenderData
  import opened Interfaces
  import Sorting
  import Normalization
  import Payloads

  // ---- ties leave a choice ----

  // Two sections that differ in the order of the VIFs of their first downstream bridge.
  lemma OtherOrder(bridges: seq<Bridge>, ups: seq<Bridge>, downs: seq<Bridge>, vifs: seq<Vif>, other: seq<Vif>)
    requires Laid(bridges, ups, downs, vifs) && vifs != []
    requires multiset(other) == multiset(vifs) && Sorting.Sorted(IdsAscend, other)
    ensures Laid(bridges[|ups| := bridges[|ups|].(vifs := other)], ups, downs, vifs)
  {
    var u := |ups|;
    var changed := bridges[u := bridges[u].(vifs := other)];
    assert changed[..u] == bridges[..u] && changed[u + 1..] == bridges[u + 1..];
  }

  lemma TiedVifs(vifs: seq<Vif>) returns (v: Vif, w: Vif)
    requires !Sorting.TotalOn(IdsAscend, vifs)
    ensures v in vifs && w in vifs && v != w && Sorting.Tied(IdsAscend, v, w)
  {
    v, w :| v in vifs && w in vifs && v != w && !IdsAscend(v, w) && !IdsAscend(w, v);
  }

  lemma OtherVifs(sorted: seq<Vif>, vifs: seq<Vif>) returns (other: seq<Vif>)
    requires multiset(sorted) == multiset(vifs) && Sorting.Sorted(IdsAscend, sorted)
    requires !Sorting.TotalOn(IdsAscend, vifs)
    ensures multiset(other) == multiset(vifs) && Sorting.Sorted(IdsAscend, other) && other != sorted
  {
    var v, w := TiedVifs(vifs);
    Sorting.SameElements(sorted, vifs);
    var i :| 0 <= i < |sorted| && sorted[i] == v;
    var j :| 0 <= j < |sorted| && sorted[j] == w;
    IdsAscendOrder();
    other := Sorting.Exchange(IdsAscend, sorted, i, j);
  }

  lemma OtherBridges(bridges: seq<Bridge>, ups: seq<Bridge>, downs: seq<Bridge>, vifs: seq<Vif>)
    returns (b: seq<Bridge>)
    requires Laid(bridges, ups, downs, vifs) && !Sorting.TotalOn(IdsAscend, vifs)
    ensures Laid(b, ups, downs, vifs) && b != bridges
  {
    var v, w := TiedVifs(vifs);
    var u := |ups|;
    var other := OtherVifs(bridges[u].vifs, vifs);
    OtherOrder(bridges, ups, downs, vifs, other);
    b := bridges[u := bridges[u].(vifs := other)];
    assert b[u].vifs == other;
  }

  lemma OtherSection(a: InterfacesSection, entries: RawInterfaces, ports: PortMap) returns (b: InterfacesSection)
    requires IsSection(a, entries, ports) && !Sorting.TotalOn(IdsAscend, Vifs(entries, |entries|, ports))
    ensures IsSection(b, entries, ports) && b != a
  {
    var n := |entries|;
    var bridges :=
      OtherBridges(a.bridges, Uplinks(entries, n, ports), Downlinks(entries, n, ports), Vifs(entries, n, ports));
    b := a.(bridges := bridges);
  }

  // The section is determined by the input exactly if no two different VIFs tie in the
  // comparison they are sorted by.
  lemma SectionDetermined(a: InterfacesSection, entries: RawInterfaces, ports: PortMap)
    requires IsSection(a, entries, ports)
    ensures (forall b | IsSection(b, entries, ports) :: b == a)
      <==> Sorting.TotalOn(IdsAscend, Vifs(entries, |entries|, ports))
  {
    if Sorting.TotalOn(IdsAscend, Vifs(entries, |entries|, ports)) {
      forall b | IsSection(b, entries, ports)
        ensures b == a
      {
        SectionUnique(a, b, entries, ports);
      }
    } else {
      var b := OtherSection(a, entries, ports);
    }
  }

  // ---- ties occur ----

  lemma VifListed(entries: seq<RawInterface>, ports: PortMap, i: nat)
    requires i < |entries| && IsVif(entries[i])
    ensures VifOf(entries[i], ports) in Vifs(entries, |entries|, ports)
  {
    IndicesExact(entries, |entries|, IsVif);
    var at := Indices(entries, |entries|, IsVif);
    assert i in at;
    var k :| 0 <= k < |at| && at[k] == i;
    assert Vifs(entries, |entries|, ports)[k] == VifOf(entries[i], ports);
  }

  // Two VLAN entries alike in id, name and ports, with different subnets, tie.
  lemma TiedEntries(entries: seq<RawInterface>, ports: PortMap, i: nat, j: nat)
    requires i < |entries| && j < |entries| && IsVif(entries[i]) && IsVif(entries[j])
    requires entries[i].vlan == entries[j].vlan && entries[i].name == entries[j].name
    requires PortSet(entries[i], ports) == PortSet(entries[j], ports)
    requires entries[i].ipv4.subnet != entries[j].ipv4.subnet
    ensures !Sorting.TotalOn(IdsAscend, Vifs(entries, |entries|, ports))
  {
    VifListed(entries, ports, i);
    VifListed(entries, ports, j);
    var v, w := VifOf(entries[i], ports), VifOf(entries[j], ports);
    IdsAscendPair(v, w);
    assert IdsAscend(v, w) == IdsAscend(w, v);
  }

  // A payload that normalizes in more than one way: a bridge with two such VLANs.
  function Doubled(): RawInterfaces {
    Payloads.ThreeEntries("lan", "lan", "lan", 7, "10.0.1.1/24", "10.0.2.1/24")
  }

  lemma SubnetsFit()
    ensures Payloads.FitSubnet("10.0.1.1/24") && Payloads.FitSubnet("10.0.2.1/24")
  {
  }

  lemma DoubledFits(entries: RawInterfaces)
    requires entries == Doubled()
    ensures Payloads.Trio(entries, Payloads.PORTS) && NoFault(entries, Payloads.PORTS, 3)
    ensures PortSet(entries[1], Payloads.PORTS) == PortSet(entries[2], Payloads.PORTS)
  {
    SubnetsFit();
    Payloads.ThreeFit("lan", "lan", "lan", 7, "10.0.1.1/24", "10.0.2.1/24");
    Payloads.OneSelector(entries[1], "lan");
    Payloads.OneSelector(entries[2], "lan");
  }

  lemma NeverAfter(v: Vif, w: Vif)
    requires v.id == w.id && v.description == w.description && v.members == w.members
    ensures !IdsAscend(w, v)
  {
    IdsAscendPair(v, w);
  }

  lemma TwoSections(entries: RawInterfaces, ports: PortMap) returns (a: InterfacesSection, b: InterfacesSection)
    requires Payloads.Trio(entries, ports) && PortSet(entries[1], ports) == PortSet(entries[2], ports)
    requires entries[1].vlan == entries[2].vlan && entries[1].name == entries[2].name
    requires entries[1].ipv4.subnet != entries[2].ipv4.subnet
    ensures IsSection(a, entries, ports) && IsSection(b, entries, ports) && a != b
    ensures a.inputs == b.inputs == []
  {
    NeverAfter(VifOf(entries[1], ports), VifOf(entries[2], ports));
    TiedEntries(entries, ports, 1, 2);
    Payloads.TrioNormalizes(entries, ports);
    a := Payloads.TrioSection(entries, ports);
    b := OtherSection(a, entries, ports);
  }

  // It is accepted, with either order of the two.
  lemma Undetermined() returns (a: Data, b: Data)
    ensures Normalization.ValidPorts(Payloads.PORTS)
    ensures Normalization.IsNormalized(a, Payloads.OnlyInterfaces(Doubled()), Payloads.PORTS)
    ensures Normalization.IsNormalized(b, Payloads.OnlyInterfaces(Doubled()), Payloads.PORTS)
    ensures a != b
  {
    var entries := Doubled();
    DoubledFits(entries);
    var one, other := TwoSections(entries, Payloads.PORTS);
    Payloads.PortsValid();
    Payloads.SectionNormalizes(one, entries, Payloads.PORTS);
    Payloads.SectionNormalizes(other, entries, Payloads.PORTS);
    a, b := Payloads.OnlySection(one), Payloads.OnlySection(other);
  }
}
