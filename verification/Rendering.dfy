// Every line printed for valid data is a valid set path, and only descriptions can
// bring in a character that the parser forbids.
module Rendering {
  import opened Wrappers
  import opened RenderData
  import opened Tokenizer
  import Decimal
  import Netip
  import Parser
  import Validate
  import opened Templates
  import opened RoundTrip

  // ---- valid data ----

  predicate Token(s: string) {
    Validate.IsToken(s, true)
  }

  predicate AllTokens(words: seq<string>) {
    forall i | 0 <= i < |words| :: Token(words[i])
  }

  predicate ValidVif(v: Vif) {
    Token(v.address) && Validate.IsDescription(v.description)
  }

  predicate ValidBridge(b: Bridge) {
    && Token(b.name) && Token(b.address) && Validate.IsDescription(b.description) && AllTokens(b.members)
    && forall i | 0 <= i < |b.vifs| :: ValidVif(b.vifs[i])
  }

  predicate ValidEthernet(e: Ethernet) {
    Token(e.name) && Validate.IsDescription(e.description)
  }

  predicate ValidAddr(s: string) {
    Token(s) && Netip.ParseAddr(s).Some?
  }

  predicate Positive(n: int) {
    1 <= n <= Decimal.MAX_INT
  }

  predicate ValidLan(l: ServiceLan) {
    && Token(l.name) && Token(l.prefix) && Netip.ParsePrefix(l.prefix).Some?
    && ValidAddr(l.lanIp) && ValidAddr(l.rangeStart) && ValidAddr(l.rangeStop)
    && Positive(l.leaseSecs) && Positive(l.subnetId)
  }

  predicate ValidRule(r: NatRule) {
    Token(r.outbound) && Token(r.source) && Token(r.translation)
  }

  ghost predicate ValidData(d: Data) {
    && (forall i | 0 <= i < |d.interfaces.bridges| :: ValidBridge(d.interfaces.bridges[i]))
    && (forall i | 0 <= i < |d.interfaces.ethernets| :: ValidEthernet(d.interfaces.ethernets[i]))
    && (forall i | 0 <= i < |d.rules| :: ValidRule(d.rules[i]))
    && (forall i | 0 <= i < |d.services.lans| :: ValidLan(d.services.lans[i]))
    && (d.services.sshEnabled ==> 1 <= d.services.sshPort <= 65535)
  }

  ghost predicate DirtyVifs(vifs: seq<Vif>) {
    exists i | 0 <= i < |vifs| :: Dirty(vifs[i].description)
  }

  ghost predicate DirtyBridge(b: Bridge) {
    Dirty(b.description) || DirtyVifs(b.vifs)
  }

  ghost predicate DirtyBridges(bridges: seq<Bridge>) {
    exists i | 0 <= i < |bridges| :: DirtyBridge(bridges[i])
  }

  ghost predicate DirtyEthernets(ethernets: seq<Ethernet>) {
    exists i | 0 <= i < |ethernets| :: Dirty(ethernets[i].description)
  }

  // A description contains a character that the parser forbids.
  ghost predicate DirtyData(d: Data) {
    DirtyBridges(d.interfaces.bridges) || DirtyEthernets(d.interfaces.ethernets)
  }

  // ---- lines of tokens ----

  lemma BareTokens(words: seq<string>)
    requires AllTokens(words)
    ensures forall w | w in Bares(words) :: w.Printable() && Unbroken(w.text) && !Dirty(w.text)
    ensures Texts(Bares(words)) == words
  {
    forall w | w in Bares(words)
      ensures w.Printable() && Unbroken(w.text) && !Dirty(w.text)
    {
      var i :| 0 <= i < |words| && w == Bare(words[i]);
      Validate.TokenIsBare(words[i], true);
    }
  }

  lemma TokenLine(words: seq<string>)
    requires AllTokens(words) && Parser.ValidSetPath(words) && words[0] == "set"
    ensures GoodLine(Bares(words)) && !DirtyLine(Bares(words))
  {
    BareTokens(words);
  }

  lemma DescribedLine(head: seq<string>, description: string)
    requires AllTokens(head) && head != [] && head[0] == "set" && Validate.IsDescription(description)
    requires Parser.ValidSetPath(head + ["description"] + [description])
    ensures GoodLine(DescriptionLine(head, description))
    ensures DirtyLine(DescriptionLine(head, description)) <==> Dirty(description)
  {
    var words := head + ["description"];
    var line := DescriptionLine(head, description);
    DescriptionWord();
    BareTokens(words);
    Validate.DescriptionIsQuotable(description);
    assert Texts(line) == words + [description];
    assert line[|words|] == Quoted(description);
  }

  // ---- the fixed words of the templates ----

  lemma BridgeWords()
    ensures Token("set") && Token("interfaces") && Token("bridge") && Token("address") && Token("ethernet")
  {
  }

  lemma DescriptionWord()
    ensures Token("description")
  {
  }

  lemma MemberWords()
    ensures Token("member") && Token("interface") && Token("allowed-vlan") && Token("native-vlan") && Token("1")
    ensures Token("vif")
  {
  }

  lemma DhcpWords()
    ensures Token("service") && Token("dhcp-server") && Token("shared-network-name") && Token("subnet")
  {
  }

  lemma LeaseWords()
    ensures Token("lease") && Token("option") && Token("default-router") && Token("name-server")
  {
  }

  lemma RangeWords()
    ensures Token("range") && Token("0") && Token("start") && Token("stop") && Token("subnet-id")
  {
  }

  lemma DnsWords()
    ensures Token("dns") && Token("forwarding") && Token("allow-from") && Token("cache-size")
    ensures Token("listen-address")
  {
  }

  lemma SshWords()
    ensures Token("set") && Token("ssh") && Token("port")
  {
  }

  lemma NatWords()
    ensures Token("nat") && Token("source") && Token("rule") && Token("outbound-interface") && Token("name")
    ensures Token("translation")
  {
  }

  lemma NumberToken(n: int)
    ensures Token(Decimal.Itoa(n))
  {
    var digits := Decimal.Digits(if n < 0 then -n else n);
    forall c | c in digits
      ensures Decimal.IsDigit(c)
    {
    }
  }

  // ---- bridges ----

  lemma BridgePath(words: seq<string>)
    requires |words| >= 4 && words[1] == "interfaces" && words[2] == "bridge"
    ensures Parser.ValidSetPath(words)
  {
  }

  lemma HeadTokens(b: Bridge)
    requires ValidBridge(b)
    ensures AllTokens(BridgeHead(b))
  {
    BridgeWords();
  }

  lemma MemberTokens(b: Bridge, member: string)
    requires ValidBridge(b) && Token(member)
    ensures AllTokens(MemberHead(b, member))
  {
    HeadTokens(b);
    MemberWords();
  }

  lemma VifTokens(b: Bridge, v: Vif)
    requires ValidBridge(b)
    ensures AllTokens(VifHead(b, v))
  {
    HeadTokens(b);
    MemberWords();
    NumberToken(v.id);
  }

  // More words after the head of a bridge line.
  lemma BridgeLine(b: Bridge, words: seq<string>)
    requires BridgeHead(b) <= words && AllTokens(words)
    ensures GoodLine(Bares(words)) && !DirtyLine(Bares(words))
  {
    assert words[0] == BridgeHead(b)[0] && words[1] == BridgeHead(b)[1] && words[2] == BridgeHead(b)[2];
    BridgePath(words);
    TokenLine(words);
  }

  lemma BridgeDescription(b: Bridge, head: seq<string>, description: string)
    requires BridgeHead(b) <= head && AllTokens(head) && Validate.IsDescription(description)
    ensures GoodLine(DescriptionLine(head, description))
    ensures DirtyLine(DescriptionLine(head, description)) <==> Dirty(description)
  {
    var words := head + ["description"] + [description];
    assert words[0] == BridgeHead(b)[0] && words[1] == BridgeHead(b)[1] && words[2] == BridgeHead(b)[2];
    BridgePath(words);
    DescribedLine(head, description);
  }

  lemma HeadLinesGood(b: Bridge)
    requires ValidBridge(b)
    ensures AllGood(HeadLines(b)) && (AnyDirty(HeadLines(b)) <==> Dirty(b.description))
  {
    HeadTokens(b);
    BridgeWords();
    BridgeLine(b, BridgeHead(b) + ["address", b.address]);
    BridgeDescription(b, BridgeHead(b), b.description);
    assert HeadLines(b)[1] == DescriptionLine(BridgeHead(b), b.description);
  }

  lemma MemberLinesGood(b: Bridge, member: string)
    requires ValidBridge(b) && Token(member)
    ensures AllGood(MemberLines(b, member)) && !AnyDirty(MemberLines(b, member))
  {
    var head, ids := MemberHead(b, member), AllowedVlans(b.vifs, member);
    MemberTokens(b, member);
    MemberWords();
    BridgeLine(b, head);
    BridgeLine(b, head + ["native-vlan", "1"]);
    forall i | 0 <= i < |ids|
      ensures GoodLine(AllowedLine(b, member, ids[i])) && !DirtyLine(AllowedLine(b, member, ids[i]))
    {
      NumberToken(ids[i]);
      BridgeLine(b, head + ["allowed-vlan", Decimal.Itoa(ids[i])]);
    }
  }

  lemma VifLinesGood(b: Bridge, v: Vif)
    requires ValidBridge(b) && ValidVif(v)
    ensures AllGood(VifLines(b, v)) && (AnyDirty(VifLines(b, v)) <==> Dirty(v.description))
  {
    VifTokens(b, v);
    BridgeWords();
    BridgeLine(b, VifHead(b, v) + ["address", v.address]);
    BridgeDescription(b, VifHead(b, v), v.description);
    assert VifLines(b, v)[1] == DescriptionLine(VifHead(b, v), v.description);
  }

  lemma {:induction false} ConcatGood(lists: seq<seq<Line>>)
    requires forall i | 0 <= i < |lists| :: AllGood(lists[i])
    ensures AllGood(Concat(lists))
  {
    if lists != [] {
      var n := |lists| - 1;
      ConcatGood(lists[..n]);
      GoodParts(Concat(lists[..n]), lists[n]);
    }
  }

  lemma {:induction false} ConcatDirty(lists: seq<seq<Line>>)
    ensures AnyDirty(Concat(lists)) <==> exists i :: 0 <= i < |lists| && AnyDirty(lists[i])
  {
    if lists != [] {
      var n := |lists| - 1;
      ConcatDirty(lists[..n]);
      GoodParts(Concat(lists[..n]), lists[n]);
      assert forall i | 0 <= i < n :: lists[..n][i] == lists[i];
    }
  }

  lemma BridgeLinesGood(b: Bridge)
    requires ValidBridge(b)
    ensures AllGood(BridgeLines(b)) && (AnyDirty(BridgeLines(b)) <==> DirtyBridge(b))
  {
    AllMembersGood(b);
    AllVifsGood(b);
    HeadLinesGood(b);
    GoodParts(HeadLines(b) + Concat(MemberLists(b)), Concat(VifLists(b)));
    GoodParts(HeadLines(b), Concat(MemberLists(b)));
  }

  lemma AllMembersGood(b: Bridge)
    requires ValidBridge(b)
    ensures AllGood(Concat(MemberLists(b))) && !AnyDirty(Concat(MemberLists(b)))
  {
    var lists := MemberLists(b);
    forall i | 0 <= i < |lists|
      ensures AllGood(lists[i]) && !AnyDirty(lists[i])
    {
      MemberLinesGood(b, b.members[i]);
    }
    ConcatGood(lists);
    ConcatDirty(lists);
  }

  lemma AllVifsGood(b: Bridge)
    requires ValidBridge(b)
    ensures AllGood(Concat(VifLists(b))) && (AnyDirty(Concat(VifLists(b))) <==> DirtyVifs(b.vifs))
  {
    var lists := VifLists(b);
    forall i | 0 <= i < |lists|
      ensures AllGood(lists[i]) && (AnyDirty(lists[i]) <==> Dirty(b.vifs[i].description))
    {
      VifLinesGood(b, b.vifs[i]);
    }
    ConcatGood(lists);
    ConcatDirty(lists);
  }

  // ---- ethernets ----

  lemma EthernetGood(e: Ethernet)
    requires ValidEthernet(e)
    ensures GoodLine(EthernetLine(e)) && (DirtyLine(EthernetLine(e)) <==> Dirty(e.description))
  {
    BridgeWords();
    DescribedLine(["set", "interfaces", "ethernet", e.name], e.description);
  }

  lemma EthernetsGood(ethernets: seq<Ethernet>)
    requires forall i | 0 <= i < |ethernets| :: ValidEthernet(ethernets[i])
    ensures AllGood(EthernetLines(ethernets))
    ensures AnyDirty(EthernetLines(ethernets)) <==> DirtyEthernets(ethernets)
  {
    forall i | 0 <= i < |ethernets|
      ensures GoodLine(EthernetLines(ethernets)[i])
      ensures DirtyLine(EthernetLines(ethernets)[i]) <==> Dirty(ethernets[i].description)
    {
      EthernetGood(ethernets[i]);
    }
  }

  lemma InterfacesGood(s: InterfacesSection)
    requires forall i | 0 <= i < |s.bridges| :: ValidBridge(s.bridges[i])
    requires forall i | 0 <= i < |s.ethernets| :: ValidEthernet(s.ethernets[i])
    ensures AllGood(InterfaceLines(s))
    ensures AnyDirty(InterfaceLines(s)) <==> DirtyBridges(s.bridges) || DirtyEthernets(s.ethernets)
  {
    var lists := BridgeLists(s.bridges);
    forall i | 0 <= i < |lists|
      ensures AllGood(lists[i]) && (AnyDirty(lists[i]) <==> DirtyBridge(s.bridges[i]))
    {
      BridgeLinesGood(s.bridges[i]);
    }
    ConcatGood(lists);
    ConcatDirty(lists);
    EthernetsGood(s.ethernets);
    GoodParts(Concat(lists), EthernetLines(s.ethernets));
  }

  // ---- services ----

  // Good lines without a forbidden character.
  ghost predicate Spotless(lines: seq<Line>) {
    AllGood(lines) && !AnyDirty(lines)
  }

  lemma PositiveNumber(n: int)
    requires Positive(n)
    ensures Token(Decimal.Itoa(n)) && Parser.PositiveInt(Decimal.Itoa(n)) == Some(n)
  {
    NumberToken(n);
    Decimal.AtoiItoa(n);
  }

  lemma DhcpTokens(l: ServiceLan)
    requires ValidLan(l)
    ensures AllTokens(DhcpHead(l))
  {
    BridgeWords();
    DhcpWords();
  }

  // More words after the head of a DHCP line.
  lemma DhcpLine(l: ServiceLan, words: seq<string>)
    requires ValidLan(l) && AllTokens(words) && Parser.ValidDhcpPath(DhcpHead(l) + words)
    ensures GoodLine(Bares(DhcpHead(l) + words)) && !DirtyLine(Bares(DhcpHead(l) + words))
  {
    DhcpTokens(l);
    TokenLine(DhcpHead(l) + words);
  }

  lemma LeasePath(l: ServiceLan, word: string, n: int)
    requires ValidLan(l) && (word == "lease" || word == "subnet-id") && Parser.PositiveInt(Decimal.Itoa(n)).Some?
    ensures Parser.ValidDhcpPath(DhcpHead(l) + [word, Decimal.Itoa(n)])
  {
  }

  lemma LeaseLine(l: ServiceLan, word: string, n: int)
    requires ValidLan(l) && (word == "lease" || word == "subnet-id") && Positive(n)
    ensures Spotless([Bares(DhcpHead(l) + [word, Decimal.Itoa(n)])])
  {
    LeaseWords();
    RangeWords();
    PositiveNumber(n);
    LeasePath(l, word, n);
    DhcpLine(l, [word, Decimal.Itoa(n)]);
  }

  lemma OptionPath(l: ServiceLan, option: string)
    requires ValidLan(l) && (option == "default-router" || option == "name-server")
    ensures Parser.ValidDhcpPath(DhcpHead(l) + ["option", option, l.lanIp])
  {
  }

  lemma OptionLine(l: ServiceLan, option: string)
    requires ValidLan(l) && (option == "default-router" || option == "name-server")
    ensures Spotless([Bares(DhcpHead(l) + ["option", option, l.lanIp])])
  {
    LeaseWords();
    OptionPath(l, option);
    DhcpLine(l, ["option", option, l.lanIp]);
  }

  lemma RangePath(l: ServiceLan, end: string, addr: string)
    requires ValidLan(l) && (end == "start" || end == "stop") && ValidAddr(addr)
    ensures Parser.ValidDhcpPath(DhcpHead(l) + ["range", "0", end, addr])
  {
  }

  lemma RangeTokens(end: string, addr: string)
    requires (end == "start" || end == "stop") && ValidAddr(addr)
    ensures AllTokens(["range", "0", end, addr])
  {
    RangeWords();
  }

  lemma RangeLine(l: ServiceLan, end: string, addr: string)
    requires ValidLan(l) && (end == "start" || end == "stop") && ValidAddr(addr)
    ensures Spotless([Bares(DhcpHead(l) + ["range", "0", end, addr])])
  {
    RangeTokens(end, addr);
    RangePath(l, end, addr);
    DhcpLine(l, ["range", "0", end, addr]);
  }

  lemma SpotlessParts(a: seq<Line>, b: seq<Line>)
    ensures Spotless(a + b) <==> Spotless(a) && Spotless(b)
  {
    GoodParts(a, b);
  }

  lemma DhcpLinesGood(l: ServiceLan)
    requires ValidLan(l)
    ensures Spotless(DhcpLines(l))
  {
    LeaseLine(l, "lease", l.leaseSecs);
    LeaseLine(l, "subnet-id", l.subnetId);
    OptionLine(l, "default-router");
    OptionLine(l, "name-server");
    RangeLine(l, "start", l.rangeStart);
    RangeLine(l, "stop", l.rangeStop);
    SixSpotless(DhcpLines(l));
  }

  lemma SixSpotless(lines: seq<Line>)
    requires |lines| == 6
    requires Spotless([lines[0]]) && Spotless([lines[1]]) && Spotless([lines[2]])
    requires Spotless([lines[3]]) && Spotless([lines[4]]) && Spotless([lines[5]])
    ensures Spotless(lines)
  {
    forall i | 0 <= i < 6
      ensures GoodLine(lines[i]) && !DirtyLine(lines[i])
    {
      assert Spotless([lines[i]]);
      assert [lines[i]][0] == lines[i];
    }
  }

  lemma {:induction false} ConcatSpotless(lists: seq<seq<Line>>)
    requires forall i | 0 <= i < |lists| :: Spotless(lists[i])
    ensures Spotless(Concat(lists))
  {
    ConcatGood(lists);
    ConcatDirty(lists);
  }

  lemma DnsLineGood(words: seq<string>)
    requires |words| == 2 && AllTokens(words)
    requires Parser.ValidDnsPath(["set", "service", "dns", "forwarding"] + words)
    ensures Spotless([DnsLine(words)])
  {
    BridgeWords();
    DhcpWords();
    DnsWords();
    TokenLine(["set", "service", "dns", "forwarding"] + words);
  }

  lemma {:induction false} OneByOne(lines: seq<Line>)
    requires forall i | 0 <= i < |lines| :: Spotless([lines[i]])
    ensures Spotless(lines)
  {
    forall i | 0 <= i < |lines|
      ensures GoodLine(lines[i]) && !DirtyLine(lines[i])
    {
      assert Spotless([lines[i]]);
      assert [lines[i]][0] == lines[i];
    }
  }

  lemma DnsPair(l: ServiceLan)
    requires ValidLan(l)
    ensures Spotless([DnsLine(["allow-from", l.prefix])]) && Spotless([DnsLine(["listen-address", l.lanIp])])
  {
    DnsWords();
    DnsLineGood(["allow-from", l.prefix]);
    DnsLineGood(["listen-address", l.lanIp]);
  }

  lemma CacheLine()
    ensures Spotless([DnsLine(["cache-size", "0"])])
  {
    RangeWords();
    DnsWords();
    DnsLineGood(["cache-size", "0"]);
  }

  lemma DnsLinesGood(lans: seq<ServiceLan>)
    requires forall i | 0 <= i < |lans| :: ValidLan(lans[i])
    ensures Spotless(DnsLines(lans))
  {
    forall i | 0 <= i < |lans|
      ensures Spotless([DnsLine(["allow-from", lans[i].prefix])])
      ensures Spotless([DnsLine(["listen-address", lans[i].lanIp])])
    {
      DnsPair(lans[i]);
    }
    CacheLine();
    OneByOne(DnsLines(lans));
  }

  lemma SshLinesGood(s: ServiceSection)
    requires s.sshEnabled ==> 1 <= s.sshPort <= 65535
    ensures Spotless(SshLines(s))
  {
    if s.sshEnabled {
      SshWords();
      DhcpWords();
      PositiveNumber(s.sshPort);
      TokenLine(["set", "service", "ssh", "port", Decimal.Itoa(s.sshPort)]);
    }
  }

  lemma ServicesGood(s: ServiceSection)
    requires forall i | 0 <= i < |s.lans| :: ValidLan(s.lans[i])
    requires s.sshEnabled ==> 1 <= s.sshPort <= 65535
    ensures Spotless(ServiceLines(s))
  {
    forall i | 0 <= i < |s.lans|
      ensures Spotless(DhcpLists(s.lans)[i])
    {
      DhcpLinesGood(s.lans[i]);
    }
    ConcatSpotless(DhcpLists(s.lans));
    DnsLinesGood(s.lans);
    SshLinesGood(s);
    SpotlessParts(AllDhcpLines(s.lans) + DnsLines(s.lans), SshLines(s));
    SpotlessParts(AllDhcpLines(s.lans), DnsLines(s.lans));
  }

  // ---- NAT rules ----

  lemma NatLine(words: seq<string>)
    requires |words| >= 4 && words[0] == "set" && words[1] == "nat" && words[2] == "source" && AllTokens(words)
    ensures Spotless([Bares(words)])
  {
    TokenLine(words);
  }

  lemma NatLinesGood(r: NatRule)
    requires ValidRule(r)
    ensures Spotless(NatLines(r))
  {
    BridgeWords();
    NatWords();
    NumberToken(r.ruleId);
    var head := ["set", "nat", "source", "rule", Decimal.Itoa(r.ruleId)];
    NatLine(head + ["outbound-interface", "name", r.outbound]);
    NatLine(head + ["source", "address", r.source]);
    NatLine(head + ["translation", "address", r.translation]);
    OneByOne(NatLines(r));
  }

  lemma RulesGood(rules: seq<NatRule>)
    requires forall i | 0 <= i < |rules| :: ValidRule(rules[i])
    ensures Spotless(AllNatLines(rules))
  {
    forall i | 0 <= i < |rules|
      ensures Spotless(NatLists(rules)[i])
    {
      NatLinesGood(rules[i]);
    }
    ConcatSpotless(NatLists(rules));
  }

  // ---- all of it ----

  lemma DataGood(d: Data)
    requires ValidData(d)
    ensures AllGood(AllLines(d)) && (AnyDirty(AllLines(d)) <==> DirtyData(d))
  {
    InterfacesGood(d.interfaces);
    ServicesGood(d.services);
    RulesGood(d.rules);
    GoodParts(InterfaceLines(d.interfaces) + ServiceLines(d.services), AllNatLines(d.rules));
    GoodParts(InterfaceLines(d.interfaces), ServiceLines(d.services));
  }

  // Rendering valid data never fails.  A non-empty text is accepted as exactly the
  // printed lines, in order, if and only if no description contains a forbidden
  // character; otherwise a line is rejected.
  lemma RenderedIsInput(d: Data)
    requires ValidData(d)
    ensures Rendered(d) == Some(Unlines(Printed(AllLines(d))))
    ensures AllLines(d) != [] ==>
      var text, lines := Rendered(d).value, Printed(AllLines(d));
      && (Parser.Verdict(text, Ok(lines)) <==> !DirtyData(d))
      && (DirtyData(d) ==> exists n: nat :: Parser.Verdict(text, Err(Parser.InvalidCommand(n))))
    ensures AllLines(d) == [] ==> Rendered(d) == Some("")
  {
    DataGood(d);
    RenderedText(d);
    if AllLines(d) != [] {
      PrintedLines(AllLines(d));
    }
  }
}
