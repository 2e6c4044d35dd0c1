// VLAN entries of one id: on the device they share one membership.
module SharedVlans {
  import opened RenderData
  import opened Interfaces
  import opened VlanMembership
  import Sorting
  import Text
  import Templates
  import Normalization
  import Payloads
  import Ties

  lemma MembersDiffer(v: Vif, w: Vif, a: set<string>, b: set<string>)
    requires v.members == Sorting.Listing(a) && w.members == Sorting.Listing(b) && a != b
    ensures v.members != w.members
  {
    Sorting.ListingShape(a);
    Sorting.ListingShape(b);
    assert exists x :: (x in a) != (x in b);
  }

  // The bridge with the VIFs of two entries of one id on different ports is not read
  // back.
  lemma NotRecovered(bridges: seq<Bridge>, entries: RawInterfaces, ports: PortMap, i: nat, j: nat) returns (k: nat)
    requires BridgesAre(bridges, entries, ports)
    requires i < |entries| && j < |entries| && IsVif(entries[i]) && IsVif(entries[j])
    requires entries[i].vlan == entries[j].vlan && PortSet(entries[i], ports) != PortSet(entries[j], ports)
    ensures k < |bridges| && ReadBridge(Templates.BridgeLines(bridges[k])) != bridges[k]
  {
    k := |Uplinks(entries, |entries|, ports)|;
    var v, w := VifOf(entries[i], ports), VifOf(entries[j], ports);
    Ties.VifListed(entries, ports, i);
    Ties.VifListed(entries, ports, j);
    MembersDiffer(v, w, PortSet(entries[i], ports), PortSet(entries[j], ports));
    VifsOn(bridges, entries, ports, v);
    VifsOn(bridges, entries, ports, w);
    BridgeRecovered(bridges, entries, ports, k);
  }

  lemma VifsOn(bridges: seq<Bridge>, entries: RawInterfaces, ports: PortMap, v: Vif)
    requires BridgesAre(bridges, entries, ports) && v in Vifs(entries, |entries|, ports)
    ensures var k := |Uplinks(entries, |entries|, ports)|; k < |bridges| && v in bridges[k].vifs
  {
    VifsConserved(bridges, entries, ports);
    Sorting.SameElements(bridges[|Uplinks(entries, |entries|, ports)|].vifs, Vifs(entries, |entries|, ports));
  }

  // ---- it occurs ----

  function Shared(): RawInterfaces {
    Payloads.ThreeEntries("both", "lan", "right", 7, "10.0.1.1/24", "10.0.2.1/24")
  }

  lemma SharedFits(entries: RawInterfaces)
    requires entries == Shared()
    ensures Payloads.Trio(entries, Payloads.PORTS) && NoFault(entries, Payloads.PORTS, 3)
    ensures PortSet(entries[1], Payloads.PORTS) == {"eth0"} && PortSet(entries[2], Payloads.PORTS) == {"eth1"}
  {
    Ties.SubnetsFit();
    Payloads.ThreeFit("both", "lan", "right", 7, "10.0.1.1/24", "10.0.2.1/24");
    Payloads.OneSelector(entries[1], "lan");
    Payloads.OneSelector(entries[2], "right");
  }

  lemma InOrder(v: Vif, w: Vif)
    requires v.id == w.id && v.description == w.description
    requires v.members == Sorting.Listing({"eth0"}) && w.members == Sorting.Listing({"eth1"})
    ensures !IdsAscend(w, v)
  {
    Sorting.ListingUnique(["eth0"], {"eth0"});
    Sorting.ListingUnique(["eth1"], {"eth1"});
    assert Text.Join(v.members, ',') == "eth0" && Text.Join(w.members, ',') == "eth1";
    Text.LessTotal("eth0", "eth1");
    assert Text.Less("eth0", "eth1");
  }

  // A payload that normalizes and whose bridge is not read back from its lines.
  lemma Unrecovered() returns (d: Data, k: nat)
    ensures Normalization.ValidPorts(Payloads.PORTS)
    ensures Normalization.IsNormalized(d, Payloads.OnlyInterfaces(Shared()), Payloads.PORTS)
    ensures k < |d.interfaces.bridges|
    ensures ReadBridge(Templates.BridgeLines(d.interfaces.bridges[k])) != d.interfaces.bridges[k]
  {
    var entries := Shared();
    SharedFits(entries);
    InOrder(VifOf(entries[1], Payloads.PORTS), VifOf(entries[2], Payloads.PORTS));
    Payloads.TrioNormalizes(entries, Payloads.PORTS);
    var section := Payloads.TrioSection(entries, Payloads.PORTS);
    Payloads.PortsValid();
    Payloads.SectionNormalizes(section, entries, Payloads.PORTS);
    d := Payloads.OnlySection(section);
    k := NotRecovered(section.bridges, entries, Payloads.PORTS, 1, 2);
  }
}
