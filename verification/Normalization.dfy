// From a decoded payload to rendered text, and from there to what the device is told:
// internal/normalize/normalize.go and renderer/renderer.go.
module Normalization {
  import opened Wrappers
  import opened RenderData
  import Text
  import Netip
  import Validate
  import Sorting
  import I = Interfaces
  import N = Nat
  import S = ServiceLans
  import Sections
  import Runner
  import Parser
  import Planner
  import opened Tokenizer
  import opened Templates
  import opened RoundTrip
  import opened Rendering

  // The decoded sections of a payload; a missing one is empty.
  datatype Root = Root(interfaces: RawInterfaces, rules: seq<RawNatRule>, ssh: RawNumber)

  datatype Error = Interface(i: I.NormalizeError) | Rule(n: N.NatError) | BadSsh | Service(s: S.LansError)

  ghost predicate IsNormalized(d: Data, root: Root, ports: PortMap) {
    && I.Outcome(Ok(d.interfaces), root.interfaces, ports)
    && N.Outcome(Ok(d.rules), root.rules)
    && S.NormalizeSsh(root.ssh) == Some(S.Ssh(d.services.sshEnabled, d.services.sshPort))
    && S.IsResult(d.services.lans, d.interfaces.inputs)
  }

  ghost predicate InterfacesFine(root: Root, ports: PortMap) {
    exists section :: I.Outcome(Ok(section), root.interfaces, ports)
  }

  ghost predicate RulesFine(root: Root) {
    exists rules :: N.Outcome(Ok(rules), root.rules)
  }

  // The first section that fails decides: interfaces, NAT, SSH, service LANs.
  ghost predicate IsError(e: Error, root: Root, ports: PortMap) {
    match e
    case Interface(i) => I.Outcome(Err(i), root.interfaces, ports)
    case Rule(n) => InterfacesFine(root, ports) && N.Outcome(Err(n), root.rules)
    case BadSsh => InterfacesFine(root, ports) && RulesFine(root) && S.NormalizeSsh(root.ssh).None?
    case Service(s) =>
      && InterfacesFine(root, ports) && RulesFine(root) && S.NormalizeSsh(root.ssh).Some?
      && S.Outcome(Err(s), ServiceInputs(root))
  }

  function ServiceInputs(root: Root): seq<ServiceLanInput> {
    I.Inputs(root.interfaces, |root.interfaces|)
  }

  // The payloads that normalize.
  ghost predicate Normalizes(root: Root, ports: PortMap) {
    && Sections.AllConform(root.interfaces, ports) && N.Acceptable(root.rules)
    && S.NormalizeSsh(root.ssh).Some?
    && S.AllAccepted(ServiceInputs(root)) && S.Disjoint(S.Entries(ServiceInputs(root)))
  }

  // Normalize
  method Normalize(root: Root, ports: PortMap) returns (r: Result<Data, Error>)
    ensures r.Ok? <==> Normalizes(root, ports)
    ensures r.Ok? ==> IsNormalized(r.value, root, ports)
    ensures r.Err? ==> IsError(r.error, root, ports)
  {
    var interfaces := I.NormalizeInterfaces(root.interfaces, ports);
    Sections.AcceptedExactly(interfaces, root.interfaces, ports);
    if interfaces.Err? {
      return Err(Interface(interfaces.error));
    }
    var rules := N.NormalizeNat(root.rules);
    N.SucceedsExactly(rules, root.rules);
    if rules.Err? {
      return Err(Rule(rules.error));
    }
    var ssh := S.NormalizeSsh(root.ssh);
    if ssh.None? {
      return Err(BadSsh);
    }
    var lans := S.NormalizeServiceLans(interfaces.value.inputs);
    if lans.Err? {
      return Err(Service(lans.error));
    }
    return Ok(Data(interfaces.value, rules.value, ServiceSection(lans.value, ssh.value.enabled, ssh.value.port)));
  }

  // What the renderer checks of its port map.
  ghost predicate ValidPorts(ports: PortMap) {
    forall selector, port | selector in ports && port in ports[selector] :: Validate.IsToken(port, false)
  }

  // ---- normalized data is valid ----

  lemma PortTokens(e: RawInterface, ports: PortMap, members: seq<string>)
    requires ValidPorts(ports) && forall m | m in members :: m in I.PortSet(e, ports)
    ensures AllTokens(members)
  {
    forall i | 0 <= i < |members|
      ensures Token(members[i])
    {
      PortToken(e, ports, members[i]);
    }
  }

  lemma PortToken(e: RawInterface, ports: PortMap, port: string)
    requires ValidPorts(ports) && port in I.PortSet(e, ports)
    ensures Token(port)
  {
    var eth :| eth in e.ethernet && port in I.Selected(eth, ports);
    var selector :| selector in eth && selector in ports && port in ports[selector];
    assert Validate.IsToken(port, false);
  }

  lemma NameToken(n: nat)
    ensures Token(I.BridgeName(n))
  {
    NumberToken(n);
  }

  lemma AddressToken(e: RawInterface, ports: PortMap)
    requires I.Fault(e, ports).None? && (I.IsUpstream(e) || I.IsDownstream(e))
    ensures Token(I.ResolveAddress(e.ipv4).GetOr(""))
  {
  }

  lemma BareBridgeValid(e: RawInterface, ports: PortMap, n: nat)
    requires I.Fault(e, ports).None? && (I.IsUpstream(e) || I.IsDownstream(e)) && ValidPorts(ports)
    ensures ValidBridge(I.BridgeOf(e, ports, n))
  {
    NameToken(n);
    AddressToken(e, ports);
    Sorting.ListingShape(I.PortSet(e, ports));
    PortTokens(e, ports, Sorting.Listing(I.PortSet(e, ports)));
  }

  lemma VifValid(e: RawInterface, ports: PortMap)
    requires I.Fault(e, ports).None? && I.IsVif(e) && ValidPorts(ports)
    ensures ValidVif(I.VifOf(e, ports)) && AllTokens(I.VifOf(e, ports).members)
  {
    Sorting.ListingShape(I.PortSet(e, ports));
    PortTokens(e, ports, Sorting.Listing(I.PortSet(e, ports)));
  }

  ghost predicate Faultless(entries: seq<RawInterface>, ports: PortMap) {
    forall i | 0 <= i < |entries| :: I.Fault(entries[i], ports).None?
  }

  lemma LinksValid(entries: seq<RawInterface>, ports: PortMap)
    requires Faultless(entries, ports) && ValidPorts(ports)
    ensures forall k | 0 <= k < |I.Uplinks(entries, |entries|, ports)| ::
      ValidBridge(I.Uplinks(entries, |entries|, ports)[k])
    ensures forall k | 0 <= k < |I.Downlinks(entries, |entries|, ports)| ::
      ValidBridge(I.Downlinks(entries, |entries|, ports)[k])
  {
    var ups, downs := I.Indices(entries, |entries|, I.IsUpstream), I.Indices(entries, |entries|, I.IsDownstream);
    I.IndicesExact(entries, |entries|, I.IsUpstream);
    I.IndicesExact(entries, |entries|, I.IsDownstream);
    forall k | 0 <= k < |ups|
      ensures ValidBridge(I.Uplinks(entries, |entries|, ports)[k])
    {
      assert ups[k] in ups;
      BareBridgeValid(entries[ups[k]], ports, 0);
    }
    forall k | 0 <= k < |downs|
      ensures ValidBridge(I.Downlinks(entries, |entries|, ports)[k])
    {
      assert downs[k] in downs;
      BareBridgeValid(entries[downs[k]], ports, k + 1);
    }
  }

  ghost predicate ValidVifs(vifs: seq<Vif>) {
    forall k | 0 <= k < |vifs| :: ValidVif(vifs[k]) && AllTokens(vifs[k].members)
  }

  lemma VifsValid(entries: seq<RawInterface>, ports: PortMap)
    requires Faultless(entries, ports) && ValidPorts(ports)
    ensures ValidVifs(I.Vifs(entries, |entries|, ports))
  {
    var at := I.Indices(entries, |entries|, I.IsVif);
    I.IndicesExact(entries, |entries|, I.IsVif);
    forall k | 0 <= k < |at|
      ensures var v := I.Vifs(entries, |entries|, ports)[k]; ValidVif(v) && AllTokens(v.members)
    {
      assert at[k] in at;
      VifValid(entries[at[k]], ports);
    }
  }

  lemma CarriedValid(b: Bridge, bare: Bridge, vifs: seq<Vif>)
    requires I.Carries(b, bare, vifs) && ValidBridge(bare) && ValidVifs(vifs)
    ensures ValidBridge(b)
  {
    Sorting.SameElements(b.vifs, vifs);
    Sorting.ListingShape(Sorting.Elements(bare.members) + I.Members(vifs));
    forall i | 0 <= i < |b.vifs|
      ensures ValidVif(b.vifs[i])
    {
      assert b.vifs[i] in vifs;
    }
    forall i | 0 <= i < |b.members|
      ensures Token(b.members[i])
    {
      var m := b.members[i];
      assert m in b.members;
      if m in bare.members {
        var j :| 0 <= j < |bare.members| && bare.members[j] == m;
      } else {
        var v :| v in vifs && m in v.members;
        var j :| 0 <= j < |v.members| && v.members[j] == m;
      }
    }
  }

  lemma BridgesValid(bridges: seq<Bridge>, entries: RawInterfaces, ports: PortMap)
    requires I.BridgesAre(bridges, entries, ports) && Faultless(entries, ports) && ValidPorts(ports)
    ensures forall k | 0 <= k < |bridges| :: ValidBridge(bridges[k])
  {
    var n := |entries|;
    var ups, downs, vifs := I.Uplinks(entries, n, ports), I.Downlinks(entries, n, ports), I.Vifs(entries, n, ports);
    LinksValid(entries, ports);
    VifsValid(entries, ports);
    forall k | 0 <= k < |bridges|
      ensures ValidBridge(bridges[k])
    {
      I.BridgeAt(bridges, ups, downs, vifs, k);
      if k == |ups| && vifs != [] {
        CarriedValid(bridges[k], downs[0], vifs);
      }
    }
  }

  // A description of an ethernet is the name of an entry that describes it.
  lemma DescriptionSource(entries: seq<RawInterface>, ports: PortMap, port: string, d: string) returns (i: nat)
    requires I.DescriptionOf(entries, |entries|, ports, port) == Some(d)
    ensures i < |entries| && entries[i].name == d && port in I.PortSet(entries[i], ports)
    ensures !I.KindOf(entries[i]).Ignored?
  {
    var n := |entries|;
    I.FirstNameExact(entries, n, ports, port, false);
    I.FirstNameExact(entries, n, ports, port, true);
    if I.FirstName(entries, n, ports, port, false).Some? {
      i :| I.IsFirst(entries, n, ports, port, false, i) && d == entries[i].name;
    } else {
      i :| I.IsFirst(entries, n, ports, port, true, i) && d == entries[i].name;
    }
  }

  lemma EthernetsValid(ethernets: seq<Ethernet>, entries: seq<RawInterface>, ports: PortMap)
    requires I.EthernetsAre(ethernets, entries, ports) && Faultless(entries, ports) && ValidPorts(ports)
    ensures forall k | 0 <= k < |ethernets| :: ValidEthernet(ethernets[k])
  {
    forall k | 0 <= k < |ethernets|
      ensures ValidEthernet(ethernets[k])
    {
      var e := ethernets[k];
      assert Ethernet(e.name, e.description) in ethernets;
      var i := DescriptionSource(entries, ports, e.name, e.description);
      PortToken(entries[i], ports, e.name);
    }
  }

  lemma RulesValid(rules: seq<NatRule>, entries: seq<RawNatRule>)
    requires N.Outcome(Ok(rules), entries)
    ensures forall k | 0 <= k < |rules| :: ValidRule(rules[k])
  {
    Sorting.SameElements(rules, N.Rules(entries));
    forall k | 0 <= k < |rules|
      ensures ValidRule(rules[k])
    {
      assert rules[k] in N.Rules(entries);
      var i :| 0 <= i < |entries| && N.Rules(entries)[i] == rules[k];
      assert N.NormalizeRule(entries[i]) == Some(rules[k]);
    }
  }

  lemma AddrValid(a: Netip.Addr)
    ensures ValidAddr(Netip.PrintAddr(a))
  {
    Netip.PrintAddrCharacters(a);
    Netip.ParsePrintAddr(a);
  }

  lemma RecordValid(input: ServiceLanInput, lan: S.Lan)
    requires S.Resolve(input) == Ok(lan)
    ensures ValidLan(S.Record(input, lan))
  {
    S.ResolveExact(input);
    AddrValid(lan.router);
    AddrValid(lan.start);
    AddrValid(lan.stop);
    Netip.PrintPrefixCharacters(lan.block);
    Netip.ParsePrintPrefix(lan.block);
    LeaseFits(input.dhcp.leaseTime);
  }

  lemma LeaseFits(raw: RawNumber)
    requires S.LeaseTime(raw).Some?
    ensures Positive(S.LeaseTime(raw).value)
  {
    if raw.Str? {
      S.SecondsExact(S.ReadDuration(raw.text).value);
    }
  }

  lemma EntryValid(input: ServiceLanInput)
    requires S.Normalize(input).Ok?
    ensures ValidLan(S.Normalize(input).value.lan)
  {
    RecordValid(input, S.Resolve(input).value);
  }

  lemma EntriesValid(inputs: seq<ServiceLanInput>)
    requires S.AllAccepted(inputs)
    ensures forall e | e in S.Entries(inputs) :: ValidLan(e.lan)
  {
    forall i | 0 <= i < |inputs|
      ensures ValidLan(S.Entries(inputs)[i].lan)
    {
      EntryValid(inputs[i]);
    }
  }

  lemma LansValid(lans: seq<ServiceLan>, inputs: seq<ServiceLanInput>)
    requires S.IsResult(lans, inputs)
    ensures forall k | 0 <= k < |lans| :: ValidLan(lans[k])
  {
    var order :| S.IsOrdering(order, inputs) && lans == S.Records(order);
    Sorting.SameElements(order, S.Entries(inputs));
    EntriesValid(inputs);
    forall k | 0 <= k < |lans|
      ensures ValidLan(lans[k])
    {
      assert order[k] in order;
    }
  }

  lemma OutcomeFaultless(section: InterfacesSection, entries: RawInterfaces, ports: PortMap)
    requires I.Outcome(Ok(section), entries, ports)
    ensures Faultless(entries, ports)
  {
    forall i | 0 <= i < |entries|
      ensures I.Fault(entries[i], ports).None?
    {
      assert I.FaultAt(entries, ports, i).None?;
    }
  }

  lemma NormalizedIsValid(d: Data, root: Root, ports: PortMap)
    requires IsNormalized(d, root, ports) && ValidPorts(ports)
    ensures ValidData(d)
  {
    OutcomeFaultless(d.interfaces, root.interfaces, ports);
    BridgesValid(d.interfaces.bridges, root.interfaces, ports);
    EthernetsValid(d.interfaces.ethernets, root.interfaces, ports);
    RulesValid(d.rules, root.rules);
    LansValid(d.services.lans, d.interfaces.inputs);
  }

  // ---- whose descriptions are printed ----

  // An entry that becomes a bridge or a VIF has a forbidden character in its name.
  ghost predicate DirtyName(entries: seq<RawInterface>) {
    exists i | 0 <= i < |entries| :: !I.KindOf(entries[i]).Ignored? && Dirty(entries[i].name)
  }

  lemma NameOfIndex(entries: seq<RawInterface>, p: RawInterface -> bool, k: nat)
    requires k < |I.Indices(entries, |entries|, p)|
    ensures var i := I.Indices(entries, |entries|, p)[k]; i < |entries| && p(entries[i])
  {
    I.IndicesExact(entries, |entries|, p);
    assert I.Indices(entries, |entries|, p)[k] in I.Indices(entries, |entries|, p);
  }

  lemma IndexOfName(entries: seq<RawInterface>, p: RawInterface -> bool, i: nat) returns (k: nat)
    requires i < |entries| && p(entries[i])
    ensures k < |I.Indices(entries, |entries|, p)| && I.Indices(entries, |entries|, p)[k] == i
  {
    I.IndicesExact(entries, |entries|, p);
    assert i in I.Indices(entries, |entries|, p);
    k :| 0 <= k < |I.Indices(entries, |entries|, p)| && I.Indices(entries, |entries|, p)[k] == i;
  }

  // A printed bridge description is the name of the entry the bridge stands for.
  lemma BridgeDescriptions(bridges: seq<Bridge>, entries: RawInterfaces, ports: PortMap, k: nat) returns (i: nat)
    requires I.BridgesAre(bridges, entries, ports) && k < |bridges|
    ensures i < |entries| && !I.KindOf(entries[i]).Ignored? && bridges[k].description == entries[i].name
  {
    I.BridgeDescribed(bridges, entries, ports, k);
    I.HomeInRange(entries, k);
    i := I.Homes(entries)[k];
  }

  // And every entry that stands for a bridge has its name printed.
  lemma BridgePrinted(bridges: seq<Bridge>, entries: RawInterfaces, ports: PortMap, i: nat)
    requires I.BridgesAre(bridges, entries, ports) && i < |entries|
    requires I.IsUpstream(entries[i]) || I.IsDownstream(entries[i])
    ensures exists k :: 0 <= k < |bridges| && bridges[k].description == entries[i].name
  {
    I.HomesExact(entries);
    var k :| 0 <= k < |I.Homes(entries)| && I.Homes(entries)[k] == i;
    I.BridgeDescribed(bridges, entries, ports, k);
  }

  // A VIF carries the name of a VLAN entry,
  lemma VifDescriptions(bridges: seq<Bridge>, entries: RawInterfaces, ports: PortMap, k: nat, j: nat) returns (i: nat)
    requires I.BridgesAre(bridges, entries, ports) && k < |bridges| && j < |bridges[k].vifs|
    ensures i < |entries| && I.IsVif(entries[i]) && bridges[k].vifs[j].description == entries[i].name
  {
    var vifs := I.Vifs(entries, |entries|, ports);
    I.BridgesNumbered(bridges, entries, ports);
    I.VifsConserved(bridges, entries, ports);
    Sorting.SameElements(bridges[k].vifs, vifs);
    assert bridges[k].vifs[j] in vifs;
    var m :| 0 <= m < |vifs| && vifs[m] == bridges[k].vifs[j];
    NameOfIndex(entries, I.IsVif, m);
    i := I.Indices(entries, |entries|, I.IsVif)[m];
  }

  // and every VLAN entry's name is carried.
  lemma VifPrinted(bridges: seq<Bridge>, entries: RawInterfaces, ports: PortMap, i: nat) returns (k: nat, j: nat)
    requires I.BridgesAre(bridges, entries, ports) && i < |entries| && I.IsVif(entries[i])
    ensures k < |bridges| && j < |bridges[k].vifs| && bridges[k].vifs[j].description == entries[i].name
  {
    var vifs := I.Vifs(entries, |entries|, ports);
    I.VifsConserved(bridges, entries, ports);
    var m := IndexOfName(entries, I.IsVif, i);
    k := |I.Uplinks(entries, |entries|, ports)|;
    Sorting.SameElements(bridges[k].vifs, vifs);
    assert vifs[m] in bridges[k].vifs;
    j :| 0 <= j < |bridges[k].vifs| && bridges[k].vifs[j] == vifs[m];
  }

  lemma DirtyBridgeNamed(bridges: seq<Bridge>, entries: RawInterfaces, ports: PortMap, k: nat)
    requires I.BridgesAre(bridges, entries, ports) && k < |bridges| && DirtyBridge(bridges[k])
    ensures DirtyName(entries)
  {
    if Dirty(bridges[k].description) {
      var i := BridgeDescriptions(bridges, entries, ports, k);
    } else {
      var j :| 0 <= j < |bridges[k].vifs| && Dirty(bridges[k].vifs[j].description);
      var m := VifDescriptions(bridges, entries, ports, k, j);
    }
  }

  lemma DirtyEthernetNamed(ethernets: seq<Ethernet>, entries: RawInterfaces, ports: PortMap, k: nat)
    requires I.EthernetsAre(ethernets, entries, ports) && k < |ethernets| && Dirty(ethernets[k].description)
    ensures DirtyName(entries)
  {
    var e := ethernets[k];
    assert Ethernet(e.name, e.description) in ethernets;
    var i := DescriptionSource(entries, ports, e.name, e.description);
  }

  lemma DirtyNamePrinted(bridges: seq<Bridge>, entries: RawInterfaces, ports: PortMap)
    requires I.BridgesAre(bridges, entries, ports) && DirtyName(entries)
    ensures DirtyBridges(bridges)
  {
    var i :| 0 <= i < |entries| && !I.KindOf(entries[i]).Ignored? && Dirty(entries[i].name);
    if I.IsVif(entries[i]) {
      var k, j := VifPrinted(bridges, entries, ports, i);
      assert DirtyBridge(bridges[k]);
    } else {
      BridgePrinted(bridges, entries, ports, i);
      var k :| 0 <= k < |bridges| && bridges[k].description == entries[i].name;
      assert DirtyBridge(bridges[k]);
    }
  }

  // The descriptions that are printed are the names of the entries that are rendered.
  lemma DirtyNames(s: InterfacesSection, entries: RawInterfaces, ports: PortMap)
    requires I.IsSection(s, entries, ports)
    ensures DirtyBridges(s.bridges) || DirtyEthernets(s.ethernets) <==> DirtyName(entries)
  {
    if DirtyBridges(s.bridges) {
      var k :| 0 <= k < |s.bridges| && DirtyBridge(s.bridges[k]);
      DirtyBridgeNamed(s.bridges, entries, ports, k);
    } else if DirtyEthernets(s.ethernets) {
      var k :| 0 <= k < |s.ethernets| && Dirty(s.ethernets[k].description);
      DirtyEthernetNamed(s.ethernets, entries, ports, k);
    } else if DirtyName(entries) {
      DirtyNamePrinted(s.bridges, entries, ports);
    }
  }

  // ---- renderer output is apply input ----

  // For every payload that normalizes: rendering does not fail, and the parser accepts
  // the text, if it is not empty, as exactly the printed lines in order, if and only
  // if no interface that is rendered has a forbidden character in its name.
  lemma RendererOutputIsApplyInput(d: Data, root: Root, ports: PortMap)
    requires IsNormalized(d, root, ports) && ValidPorts(ports)
    ensures Rendered(d) == Some(Unlines(Printed(AllLines(d))))
    ensures AllLines(d) != [] ==>
      var text, lines := Rendered(d).value, Printed(AllLines(d));
      && (Parser.Verdict(text, Ok(lines)) <==> !DirtyName(root.interfaces))
      && (DirtyName(root.interfaces) ==> exists n: nat :: Parser.Verdict(text, Err(Parser.InvalidCommand(n))))
  {
    NormalizedIsValid(d, root, ports);
    RenderedIsInput(d);
    DirtyNames(d.interfaces, root.interfaces, ports);
  }

  // ---- what is rendered is what is run ----

  lemma LineIsRun(line: Line)
    requires GoodLine(line) && !DirtyLine(line)
    ensures Runner.Args("set", PrintWords(line)) == Some(Texts(line)[1..])
  {
    PrintedSplits(line);
  }

  // The words after "set".
  function SetPath(line: Line): Option<seq<string>> {
    if line == [] then None else Some(Texts(line)[1..])
  }

  function SetPaths(lines: seq<Line>): seq<Option<seq<string>>> {
    seq(|lines|, i requires 0 <= i < |lines| => SetPath(lines[i]))
  }

  lemma LinesAreRun(lines: seq<Line>)
    requires AllGood(lines) && !AnyDirty(lines)
    ensures Planner.DecodeAll("set", Printed(lines)) == SetPaths(lines)
  {
    forall i | 0 <= i < |lines|
      ensures Runner.Args("set", Printed(lines)[i]) == SetPath(lines[i])
    {
      LineIsRun(lines[i]);
    }
  }

  // A plan prepared from rendered text tells the device exactly the words of the
  // rendered lines, in order.
  lemma RenderedIsRun(d: Data, plan: Planner.TextPlan, input: Planner.Input, roots: seq<string>, save: bool)
    requires ValidData(d) && Rendered(d) == Some(input.desiredCommands)
    requires Planner.IsPlanFor(plan, input, roots, save)
    ensures plan.sets == Printed(AllLines(d))
    ensures Planner.Decode(plan).sets == SetPaths(AllLines(d))
  {
    RenderedIsInput(d);
    DataGood(d);
    PlanIsPrinted(input.desiredCommands, AllLines(d), plan.sets);
    LinesAreRun(AllLines(d));
  }

  lemma PlanIsPrinted(text: string, lines: seq<Line>, sets: seq<string>)
    requires AllGood(lines) && text == Unlines(Printed(lines)) && Parser.Verdict(text, Ok(sets))
    ensures sets == Printed(lines) && !AnyDirty(lines)
  {
    if lines == [] {
      NothingAccepted(sets);
    } else {
      PrintedLines(lines);
      if AnyDirty(lines) {
        var n: nat :| Parser.Verdict(text, Err(Parser.InvalidCommand(n)));
        Parser.VerdictUnique(text, Ok(sets), Err(Parser.InvalidCommand(n)));
      } else {
        Parser.VerdictUnique(text, Ok(sets), Ok(Printed(lines)));
      }
    }
  }

  // ---- the renderer ----

  datatype RenderError = NormalizeFailed(error: Error) | TemplateFailed | MissingConfig

  ghost predicate Prints(text: string, root: Root, ports: PortMap) {
    exists d :: IsNormalized(d, root, ports) && Rendered(d) == Some(text) && AllLines(d) != []
  }

  // Text is printed of data with lines; otherwise normalization fails, or there is no line.
  // The templates never fail.
  ghost predicate RenderOutcome(r: Result<string, RenderError>, root: Root, ports: PortMap) {
    && (r.Ok? ==> Prints(r.value, root, ports))
    && (r.Err? ==> r.error != TemplateFailed)
    && (r.Err? && r.error.NormalizeFailed? <==> !Normalizes(root, ports))
    && (r.Err? && r.error.NormalizeFailed? ==> IsError(r.error.error, root, ports))
    && (r == Err(MissingConfig) ==> exists d :: IsNormalized(d, root, ports) && AllLines(d) == [])
  }

  // Render, on a decoded payload.
  method RenderPayload(root: Root, ports: PortMap) returns (r: Result<string, RenderError>)
    requires ValidPorts(ports)
    ensures RenderOutcome(r, root, ports)
  {
    var data := Normalize(root, ports);
    if data.Err? {
      return Err(NormalizeFailed(data.error));
    }
    var text := Render(data.value);
    RendererOutputIsApplyInput(data.value, root, ports);
    if text.None? {
      return Err(TemplateFailed);
    }
    NormalizedIsValid(data.value, root, ports);
    DataGood(data.value);
    TextNotBlank(AllLines(data.value));
    if Text.TrimSpace(text.value) == "" {
      return Err(MissingConfig);
    }
    return Ok(text.value);
  }

  lemma TextNotBlank(lines: seq<Line>)
    requires AllGood(lines)
    ensures Text.TrimSpace(Unlines(Printed(lines))) == "" <==> lines == []
  {
    if lines != [] {
      var text := Unlines(Printed(lines));
      LineEnds(lines[0]);
      assert text[0] == Print(lines[0])[0];
      Text.TrimSpaceNonEmpty(text);
    }
  }
}
