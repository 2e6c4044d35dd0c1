// A payload whose rendered text the apply engine refuses.
module UncleanName {
  import opened Wrappers
  import opened RenderData
  import opened Templates
  import I = Interfaces
  import Validate
  import Parser
  import Runner
  import RoundTrip
  import Payloads
  import opened Normalization

  const PORTS := Payloads.PORTS

  // One uplink with an address from DHCP, named with a semicolon.
  function Uplink(): RawInterface {
    Payloads.Entry("a;b", "upstream", "lan", "", None)
  }

  function Payload(): Root {
    Payloads.OnlyInterfaces([Uplink()])
  }

  ghost function BridgeOf(e: RawInterface): Bridge {
    I.BridgeOf(e, PORTS, 0)
  }

  ghost function SectionOf(e: RawInterface): InterfacesSection {
    InterfacesSection([BridgeOf(e)], [Ethernet("eth0", e.name)], [])
  }

  // An entry that can stand alone.
  ghost predicate Alone(e: RawInterface) {
    I.IsUpstream(e) && e.name != "" && I.PortSet(e, PORTS) == {"eth0"} && I.Fault(e, PORTS).None?
  }

  lemma OneIndex(e: RawInterface, p: RawInterface -> bool)
    ensures I.Indices([e], 1, p) == if p(e) then [0] else []
  {
    assert I.Indices([e], 1, p) == I.Indices([e], 0, p) + if p(e) then [0] else [];
  }

  lemma OneBridge(e: RawInterface)
    requires Alone(e)
    ensures I.BridgesAre([BridgeOf(e)], [e], PORTS) && I.Inputs([e], 1) == []
  {
    OneIndex(e, I.IsUpstream);
    OneIndex(e, I.IsDownstream);
    OneIndex(e, I.IsVif);
    OneIndex(e, I.IsService);
  }

  lemma OneEthernet(e: RawInterface)
    requires Alone(e)
    ensures I.EthernetsAre([Ethernet("eth0", e.name)], [e], PORTS)
  {
    forall port, d
      ensures Ethernet(port, d) in [Ethernet("eth0", e.name)]
        <==> I.DescriptionOf([e], 1, PORTS, port) == Some(d)
    {
      OneName(e, port);
    }
  }

  lemma OneName(e: RawInterface, port: string)
    requires Alone(e)
    ensures I.DescriptionOf([e], 1, PORTS, port) == if port == "eth0" then Some(e.name) else None
  {
    assert I.Describes(e, PORTS, port, false) <==> port == "eth0";
    assert !I.Describes(e, PORTS, port, true);
    NameOfOne(e, port, false);
    NameOfOne(e, port, true);
  }

  lemma NameOfOne(e: RawInterface, port: string, vlan: bool)
    ensures I.FirstName([e], 1, PORTS, port, vlan)
      == if I.Describes(e, PORTS, port, vlan) then Some(e.name) else None
  {
    assert I.FirstName([e], 0, PORTS, port, vlan) == None;
  }

  lemma OneSection(e: RawInterface)
    requires Alone(e)
    ensures I.IsSection(SectionOf(e), [e], PORTS)
  {
    OneBridge(e);
    OneEthernet(e);
  }

  lemma NoFaults(e: RawInterface)
    requires Alone(e)
    ensures I.NoFault([e], PORTS, 1)
  {
    assert I.FaultAt([e], PORTS, 0).None?;
  }

  lemma UplinkAlone()
    ensures Alone(Uplink())
  {
    Payloads.OneSelector(Uplink(), "lan");
    assert Validate.IsDescription("a;b");
  }

  lemma BridgePrinted(d: Data)
    requires d.interfaces.bridges != []
    ensures AllLines(d) != []
  {
    var b := d.interfaces.bridges[0];
    assert BridgeLines(b) != [];
    assert BridgeLists(d.interfaces.bridges)[0] == BridgeLines(b);
  }

  lemma NameDirty(e: RawInterface)
    requires I.IsUpstream(e) && RoundTrip.Dirty(e.name)
    ensures DirtyName([e])
  {
    assert [e][0] == e;
  }

  lemma Semicolon(e: RawInterface)
    requires e.name == "a;b"
    ensures RoundTrip.Dirty(e.name)
  {
    assert e.name[1] in Runner.FORBIDDEN;
  }

  ghost predicate HasBadLine(text: Option<string>) {
    text.Some? && exists n: nat :: Parser.Verdict(text.value, Err(Parser.InvalidCommand(n)))
  }

  lemma BadLine(d: Data, root: Root, e: RawInterface)
    requires d.interfaces.bridges != []
    requires root.interfaces == [e] && I.IsUpstream(e) && RoundTrip.Dirty(e.name)
    ensures IsNormalized(d, root, PORTS) ==> HasBadLine(Rendered(d))
  {
    if IsNormalized(d, root, PORTS) {
      BridgePrinted(d);
      Payloads.PortsValid();
      NameDirty(e);
      RendererOutputIsApplyInput(d, root, PORTS);
    }
  }

  // It normalizes, and it renders to a text with a line that the parser refuses.
  lemma Refused() returns (d: Data)
    ensures ValidPorts(PORTS) && IsNormalized(d, Payload(), PORTS)
    ensures HasBadLine(Rendered(d))
  {
    Payloads.PortsValid();
    d := NormalizedUplink();
    Semicolon(Uplink());
    BadLine(d, Payload(), Uplink());
  }

  lemma NormalizedUplink() returns (d: Data)
    ensures IsNormalized(d, Payload(), PORTS) && d.interfaces.bridges != []
  {
    UplinkAlone();
    var section := AloneSection(Uplink());
    Payloads.SectionNormalizes(section, [Uplink()], PORTS);
    d := Payloads.OnlySection(section);
  }

  lemma AloneSection(e: RawInterface) returns (section: InterfacesSection)
    requires Alone(e)
    ensures I.IsSection(section, [e], PORTS) && I.NoFault([e], PORTS, 1)
    ensures section.inputs == [] && section.bridges != []
  {
    section := SectionOf(e);
    OneSection(e);
    NoFaults(e);
  }
}
