// When rendering fails: exactly for the payloads that do not normalize, and for those
// that say nothing that is rendered.
module NothingToRender {
  import opened Wrappers
  import opened RenderData
  import opened Templates
  import opened Normalization
  import I = Interfaces
  import N = Nat
  import S = ServiceLans
  import Sections
  import Lans

  // ---- data without lines ----

  predicate Empty(d: Data) {
    && d.interfaces.bridges == [] && d.interfaces.ethernets == [] && d.rules == []
    && d.services.lans == [] && !d.services.sshEnabled
  }

  lemma SomeLine(lists: seq<seq<Line>>)
    requires lists != [] && lists[|lists| - 1] != []
    ensures Concat(lists) != []
  {
    assert Concat(lists) == Concat(lists[..|lists| - 1]) + lists[|lists| - 1];
    assert |Concat(lists)| >= |lists[|lists| - 1]|;
  }

  lemma InterfaceLinesEmpty(s: InterfacesSection)
    ensures InterfaceLines(s) == [] <==> s.bridges == [] && s.ethernets == []
  {
    assert |EthernetLines(s.ethernets)| == |s.ethernets|;
    if s.bridges != [] {
      var b := s.bridges[|s.bridges| - 1];
      assert |BridgeLines(b)| >= |HeadLines(b)|;
      SomeLine(BridgeLists(s.bridges));
    }
  }

  lemma ServiceLinesEmpty(s: ServiceSection)
    ensures ServiceLines(s) == [] <==> s.lans == [] && !s.sshEnabled
  {
    assert |DnsLines(s.lans)| >= |s.lans|;
    if s.lans == [] {
      assert DhcpLists(s.lans) == [];
    }
  }

  lemma RuleLinesEmpty(rules: seq<NatRule>)
    ensures AllNatLines(rules) == [] <==> rules == []
  {
    if rules != [] {
      assert |NatLines(rules[|rules| - 1])| == 3;
      SomeLine(NatLists(rules));
    }
  }

  lemma NoLines(d: Data)
    ensures AllLines(d) == [] <==> Empty(d)
  {
    InterfaceLinesEmpty(d.interfaces);
    ServiceLinesEmpty(d.services);
    RuleLinesEmpty(d.rules);
  }

  // ---- payloads without data ----

  // Neither a downstream entry nor an untagged uplink.
  predicate Silent(e: RawInterface) {
    e.role != "downstream" && (e.role == "upstream" ==> Sections.Tagged(e))
  }

  predicate AllSilent(entries: seq<RawInterface>) {
    forall i | 0 <= i < |entries| :: Silent(entries[i])
  }

  // Nor a rule, nor a port.
  predicate SaysNothing(root: Root) {
    AllSilent(root.interfaces) && root.rules == [] && root.ssh.Absent?
  }

  lemma NoHomes(entries: RawInterfaces)
    ensures I.Homes(entries) == []
      <==> forall i | 0 <= i < |entries| :: !(Sections.Taken(entries[i]) && !Sections.Tagged(entries[i]))
  {
    Sections.SomeIndex(entries, |entries|, I.IsUpstream);
    Sections.SomeIndex(entries, |entries|, I.IsDownstream);
    forall i | 0 <= i < |entries|
      ensures Sections.Taken(entries[i]) && !Sections.Tagged(entries[i])
        <==> I.IsUpstream(entries[i]) || I.IsDownstream(entries[i])
    {
      Sections.KindExactly(entries[i]);
    }
  }

  lemma SilentExactly(entries: RawInterfaces)
    requires Sections.VlansPlaced(entries)
    ensures I.Homes(entries) == [] <==> AllSilent(entries)
  {
    NoHomes(entries);
  }

  lemma NoBridges(bridges: seq<Bridge>, entries: RawInterfaces, ports: PortMap)
    requires I.BridgesAre(bridges, entries, ports) && Sections.AllConform(entries, ports)
    ensures bridges == [] <==> AllSilent(entries)
  {
    Sections.NoFaultExactly(entries, ports);
    I.BridgesConserved(bridges, entries, ports);
    SilentExactly(entries);
  }

  lemma NoInputs(entries: RawInterfaces)
    requires AllSilent(entries)
    ensures I.Inputs(entries, |entries|) == []
  {
    Sections.SomeIndex(entries, |entries|, I.IsService);
  }

  lemma NotSilent(entries: seq<RawInterface>, ports: PortMap, port: string, tagged: bool, i: nat)
    requires Sections.NamesPort(entries, ports, port, tagged, i)
    ensures !AllSilent(entries)
  {
    assert !Silent(entries[i]);
  }

  lemma Describing(section: InterfacesSection, entries: RawInterfaces, ports: PortMap)
    requires I.IsSection(section, entries, ports) && section.ethernets != []
    ensures !AllSilent(entries)
  {
    var e := section.ethernets[0];
    assert Ethernet(e.name, e.description) in section.ethernets;
    Sections.EthernetsExactly(section, entries, ports, e.name, e.description);
    var i: nat, tagged :| Sections.NamesPort(entries, ports, e.name, tagged, i);
    NotSilent(entries, ports, e.name, tagged, i);
  }

  lemma InterfacesEmpty(section: InterfacesSection, entries: RawInterfaces, ports: PortMap)
    requires I.IsSection(section, entries, ports) && Sections.AllConform(entries, ports)
    ensures section.bridges == [] && section.ethernets == [] <==> AllSilent(entries)
    ensures AllSilent(entries) ==> section.inputs == []
  {
    NoBridges(section.bridges, entries, ports);
    if section.ethernets != [] {
      Describing(section, entries, ports);
    }
    if AllSilent(entries) {
      NoInputs(entries);
    }
  }

  // Nothing is rendered of a payload exactly if it says nothing.
  lemma NothingRendered(d: Data, root: Root, ports: PortMap)
    requires IsNormalized(d, root, ports)
    ensures AllLines(d) == [] <==> SaysNothing(root)
  {
    NoLines(d);
    Sections.AcceptedExactly(Ok(d.interfaces), root.interfaces, ports);
    InterfacesEmpty(d.interfaces, root.interfaces, ports);
    N.RulesExactly(d.rules, root.rules);
    Lans.SshExactly(root.ssh, S.Ssh(d.services.sshEnabled, d.services.sshPort));
    Lans.ResultExactly(d.services.lans, d.interfaces.inputs);
  }

  // Rendering gives text exactly for the payloads that normalize and say something.
  lemma RenderExactly(r: Result<string, RenderError>, root: Root, ports: PortMap)
    requires RenderOutcome(r, root, ports)
    ensures r.Ok? <==> Normalizes(root, ports) && !SaysNothing(root)
    ensures r == Err(MissingConfig) <==> Normalizes(root, ports) && SaysNothing(root)
    ensures (exists e :: r == Err(NormalizeFailed(e))) <==> !Normalizes(root, ports)
  {
    if r.Ok? {
      var d :| IsNormalized(d, root, ports) && Rendered(d) == Some(r.value) && AllLines(d) != [];
      NothingRendered(d, root, ports);
    } else if r == Err(MissingConfig) {
      var d :| IsNormalized(d, root, ports) && AllLines(d) == [];
      NothingRendered(d, root, ports);
    } else {
      assert r == Err(NormalizeFailed(r.error.error));
    }
  }
}
