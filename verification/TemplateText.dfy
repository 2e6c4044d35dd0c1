// The printed lines as text, to be compared with the template files line by line.
module TemplateText {
  import opened RenderData
  import opened Tokenizer
  import Decimal
  import opened Templates

  // Words with single spaces between them.
  function Say(words: seq<string>): string
    requires words != []
  {
    if |words| == 1 then words[0] else Say(words[..|words| - 1]) + " " + words[|words| - 1]
  }

  lemma {:induction false} SayBares(words: seq<string>)
    requires words != []
    ensures Print(Bares(words)) == Say(words)
  {
    var n := |words| - 1;
    if n > 0 {
      SayBares(words[..n]);
      assert Bares(words)[..n] == Bares(words[..n]);
    }
  }

  lemma {:induction false} SayMore(a: seq<string>, b: seq<string>)
    requires a != [] && b != []
    ensures Say(a + b) == Say(a) + " " + Say(b)
  {
    var n := |b| - 1;
    if n == 0 {
      assert (a + b)[..|a|] == a;
    } else {
      SayMore(a, b[..n]);
      assert (a + b)[..|a + b| - 1] == a + b[..n];
    }
  }

  lemma SayTwo(a: string, b: string)
    ensures Say([a, b]) == a + " " + b
  {
    assert [a, b][..1] == [a];
  }

  lemma SayThree(a: string, b: string, c: string)
    ensures Say([a, b, c]) == a + " " + b + " " + c
  {
    SayTwo(a, b);
    assert [a, b, c][..2] == [a, b];
  }

  // Fixed words and a value, the words with their spaces given as one text.
  lemma Last(words: seq<string>, value: string, text: string)
    requires words != [] && text == Say(words) + " "
    ensures Say(words + [value]) == text + value
  {
    assert (words + [value])[..|words|] == words;
  }

  // A start, fixed words, and a value.
  lemma Fixed(head: seq<string>, start: string, words: seq<string>, value: string, text: string)
    requires head != [] && words != [] && start == Say(head) && text == " " + Say(words) + " "
    ensures Print(Bares(head + words + [value])) == start + text + value
  {
    SayBares(head + words + [value]);
    SayMore(head, words);
    Last(head + words, value, start + " " + Say(words) + " ");
    Glue(start, " ", Say(words) + " ", text);
  }

  lemma One(head: seq<string>, start: string, word: string, value: string, text: string)
    requires head != [] && start == Say(head) && text == " " + word + " "
    ensures Print(Bares(head + [word, value])) == start + text + value
  {
    Fixed(head, start, [word], value, text);
    assert head + [word] + [value] == head + [word, value];
  }

  lemma Two(head: seq<string>, start: string, a: string, b: string, value: string, text: string)
    requires head != [] && start == Say(head) && text == " " + (a + " " + b) + " "
    ensures Print(Bares(head + [a, b, value])) == start + text + value
  {
    SayTwo(a, b);
    Fixed(head, start, [a, b], value, text);
    assert head + [a, b] + [value] == head + [a, b, value];
  }

  lemma Three(head: seq<string>, start: string, a: string, b: string, c: string, value: string, text: string)
    requires head != [] && start == Say(head) && text == " " + (a + " " + b + " " + c) + " "
    ensures Print(Bares(head + [a, b, c, value])) == start + text + value
  {
    SayThree(a, b, c);
    Fixed(head, start, [a, b, c], value, text);
    assert head + [a, b, c] + [value] == head + [a, b, c, value];
  }

  lemma Glue(start: string, space: string, words: string, text: string)
    requires text == space + words
    ensures start + space + words == start + text
  {
  }

  lemma Described(head: seq<string>, description: string)
    requires head != []
    ensures Print(DescriptionLine(head, description)) == Say(head) + " description '" + description + "'"
  {
    var line := DescriptionLine(head, description);
    assert line[..|line| - 1] == Bares(head + ["description"]);
    SayBares(head + ["description"]);
    SayMore(head, ["description"]);
    assert Say(["description"]) == "description";
    Quote(Say(head), description);
  }

  lemma Quote(head: string, description: string)
    ensures head + " " + "description" + " " + ("'" + description + "'") == head + " description '" + description + "'"
  {
    var text := " description '";
    assert " " + "description" + " " + "'" == text;
    assert head + " " + "description" + " " + ("'" + description + "'")
      == head + (" " + "description" + " " + "'") + description + "'";
  }

  // ---- bridge.tmpl ----

  lemma BridgeHeadText(b: Bridge)
    ensures Say(BridgeHead(b)) == "set interfaces bridge " + b.name
  {
    SayThree("set", "interfaces", "bridge");
    Last(["set", "interfaces", "bridge"], b.name, "set interfaces bridge ");
    assert BridgeHead(b) == ["set", "interfaces", "bridge"] + [b.name];
  }

  lemma BridgeText(b: Bridge)
    ensures Print(HeadLines(b)[0]) == "set interfaces bridge " + b.name + " address " + b.address
    ensures Print(HeadLines(b)[1]) == "set interfaces bridge " + b.name + " description '" + b.description + "'"
  {
    BridgeHeadText(b);
    One(BridgeHead(b), "set interfaces bridge " + b.name, "address", b.address, " address ");
    Described(BridgeHead(b), b.description);
  }

  function MemberStart(b: Bridge, member: string): string {
    "set interfaces bridge " + b.name + " member interface " + member
  }

  lemma MemberHeadText(b: Bridge, member: string)
    ensures Say(MemberHead(b, member)) == MemberStart(b, member)
  {
    BridgeHeadText(b);
    Two(BridgeHead(b), "set interfaces bridge " + b.name, "member", "interface", member, " member interface ");
    SayBares(MemberHead(b, member));
  }

  lemma AllowedText(b: Bridge, member: string, id: int)
    ensures Print(AllowedLine(b, member, id)) == MemberStart(b, member) + " allowed-vlan " + Decimal.Itoa(id)
  {
    MemberHeadText(b, member);
    One(MemberHead(b, member), MemberStart(b, member), "allowed-vlan", Decimal.Itoa(id), " allowed-vlan ");
  }

  lemma NativeText(b: Bridge, member: string)
    ensures Print(NativeLine(b, member)) == MemberStart(b, member) + " native-vlan " + "1"
  {
    MemberHeadText(b, member);
    One(MemberHead(b, member), MemberStart(b, member), "native-vlan", "1", " native-vlan ");
  }

  // The lines of a member: one for every VLAN it is allowed on and then its native one,
  // or a single line if it is on none.
  lemma MemberText(b: Bridge, member: string)
    ensures var ids := AllowedVlans(b.vifs, member);
      && |MemberLines(b, member)| == |ids| + 1
      && (forall i | 0 <= i < |ids| ::
            Print(MemberLines(b, member)[i]) == MemberStart(b, member) + " allowed-vlan " + Decimal.Itoa(ids[i]))
      && Print(MemberLines(b, member)[|ids|])
        == if ids == [] then MemberStart(b, member) else MemberStart(b, member) + " native-vlan " + "1"
  {
    var ids := AllowedVlans(b.vifs, member);
    NativeText(b, member);
    MemberHeadText(b, member);
    SayBares(MemberHead(b, member));
    forall i | 0 <= i < |ids|
      ensures Print(MemberLines(b, member)[i]) == MemberStart(b, member) + " allowed-vlan " + Decimal.Itoa(ids[i])
    {
      AllowedText(b, member, ids[i]);
    }
  }

  function VifStart(b: Bridge, v: Vif): string {
    "set interfaces bridge " + b.name + " vif " + Decimal.Itoa(v.id)
  }

  lemma VifHeadText(b: Bridge, v: Vif)
    ensures Say(VifHead(b, v)) == VifStart(b, v)
  {
    BridgeHeadText(b);
    One(BridgeHead(b), "set interfaces bridge " + b.name, "vif", Decimal.Itoa(v.id), " vif ");
    SayBares(VifHead(b, v));
  }

  lemma VifText(b: Bridge, v: Vif)
    ensures Print(VifLines(b, v)[0]) == VifStart(b, v) + " address " + v.address
    ensures Print(VifLines(b, v)[1]) == VifStart(b, v) + " description '" + v.description + "'"
  {
    VifHeadText(b, v);
    One(VifHead(b, v), VifStart(b, v), "address", v.address, " address ");
    Described(VifHead(b, v), v.description);
  }

  // ---- ethernet.tmpl ----

  lemma EthernetHeadText(name: string)
    ensures Say(["set", "interfaces", "ethernet", name]) == "set interfaces ethernet " + name
  {
    SayThree("set", "interfaces", "ethernet");
    Last(["set", "interfaces", "ethernet"], name, "set interfaces ethernet ");
    assert ["set", "interfaces", "ethernet", name] == ["set", "interfaces", "ethernet"] + [name];
  }

  lemma EthernetText(e: Ethernet)
    ensures Print(EthernetLine(e)) == "set interfaces ethernet " + e.name + " description '" + e.description + "'"
  {
    EthernetHeadText(e.name);
    Described(["set", "interfaces", "ethernet", e.name], e.description);
  }

  // ---- dhcp-server.tmpl, dns-forwarding.tmpl, ssh.tmpl ----

  function DhcpBegin(l: ServiceLan): string {
    "set service dhcp-server shared-network-name " + l.name + " subnet " + l.prefix
  }

  const DHCP := ["set", "service", "dhcp-server", "shared-network-name"]

  lemma DhcpServerText()
    ensures Say(["set", "service", "dhcp-server"]) == "set service dhcp-server"
  {
    SayThree("set", "service", "dhcp-server");
    assert "set" + " " + "service" + " " + "dhcp-server" == "set service dhcp-server";
  }

  lemma DhcpNetworkText()
    ensures Say(DHCP) == "set service dhcp-server shared-network-name"
  {
    DhcpServerText();
    var text := "set service dhcp-server" + " ";
    Last(["set", "service", "dhcp-server"], "shared-network-name", text);
    assert DHCP == ["set", "service", "dhcp-server"] + ["shared-network-name"];
    assert text + "shared-network-name" == "set service dhcp-server shared-network-name";
  }

  lemma DhcpStartText(name: string)
    ensures Say(DHCP + [name]) == "set service dhcp-server shared-network-name " + name
  {
    var text := "set service dhcp-server shared-network-name ";
    DhcpNetworkText();
    assert "set service dhcp-server shared-network-name" + " " == text;
    Last(DHCP, name, text);
  }

  lemma DhcpHeadText(l: ServiceLan)
    ensures Say(DhcpHead(l)) == DhcpBegin(l)
  {
    var start := DHCP + [l.name];
    DhcpStartText(l.name);
    One(start, "set service dhcp-server shared-network-name " + l.name, "subnet", l.prefix, " subnet ");
    SayBares(DhcpHead(l));
    assert DhcpHead(l) == start + ["subnet", l.prefix];
  }

  lemma DhcpOption(l: ServiceLan, option: string, text: string)
    requires text == " " + ("option" + " " + option) + " "
    ensures Print(Bares(DhcpHead(l) + ["option", option, l.lanIp])) == DhcpBegin(l) + text + l.lanIp
  {
    DhcpHeadText(l);
    Two(DhcpHead(l), DhcpBegin(l), "option", option, l.lanIp, text);
  }

  lemma DhcpRange(l: ServiceLan, end: string, address: string, text: string)
    requires text == " " + ("range" + " " + "0" + " " + end) + " "
    ensures Print(Bares(DhcpHead(l) + ["range", "0", end, address])) == DhcpBegin(l) + text + address
  {
    DhcpHeadText(l);
    Three(DhcpHead(l), DhcpBegin(l), "range", "0", end, address, text);
  }

  lemma DhcpNumber(l: ServiceLan, word: string, number: string, text: string)
    requires text == " " + word + " "
    ensures Print(Bares(DhcpHead(l) + [word, number])) == DhcpBegin(l) + text + number
  {
    DhcpHeadText(l);
    One(DhcpHead(l), DhcpBegin(l), word, number, text);
  }

  lemma LeaseText(l: ServiceLan)
    ensures Print(DhcpLines(l)[0]) == DhcpBegin(l) + " lease " + Decimal.Itoa(l.leaseSecs)
  {
    DhcpNumber(l, "lease", Decimal.Itoa(l.leaseSecs), " lease ");
  }

  lemma SubnetIdText(l: ServiceLan)
    ensures Print(DhcpLines(l)[5]) == DhcpBegin(l) + " subnet-id " + Decimal.Itoa(l.subnetId)
  {
    DhcpNumber(l, "subnet-id", Decimal.Itoa(l.subnetId), " subnet-id ");
  }

  lemma RouterText(l: ServiceLan)
    ensures Print(DhcpLines(l)[1]) == DhcpBegin(l) + " option default-router " + l.lanIp
  {
    DhcpOption(l, "default-router", " option default-router ");
  }

  lemma ServerText(l: ServiceLan)
    ensures Print(DhcpLines(l)[2]) == DhcpBegin(l) + " option name-server " + l.lanIp
  {
    DhcpOption(l, "name-server", " option name-server ");
  }

  lemma StartText(l: ServiceLan)
    ensures Print(DhcpLines(l)[3]) == DhcpBegin(l) + " range 0 start " + l.rangeStart
  {
    DhcpRange(l, "start", l.rangeStart, " range 0 start ");
  }

  lemma StopText(l: ServiceLan)
    ensures Print(DhcpLines(l)[4]) == DhcpBegin(l) + " range 0 stop " + l.rangeStop
  {
    DhcpRange(l, "stop", l.rangeStop, " range 0 stop ");
  }

  // The six lines of a LAN.
  lemma DhcpText(l: ServiceLan)
    ensures |DhcpLines(l)| == 6
    ensures Print(DhcpLines(l)[0]) == DhcpBegin(l) + " lease " + Decimal.Itoa(l.leaseSecs)
    ensures Print(DhcpLines(l)[1]) == DhcpBegin(l) + " option default-router " + l.lanIp
    ensures Print(DhcpLines(l)[2]) == DhcpBegin(l) + " option name-server " + l.lanIp
    ensures Print(DhcpLines(l)[3]) == DhcpBegin(l) + " range 0 start " + l.rangeStart
    ensures Print(DhcpLines(l)[4]) == DhcpBegin(l) + " range 0 stop " + l.rangeStop
    ensures Print(DhcpLines(l)[5]) == DhcpBegin(l) + " subnet-id " + Decimal.Itoa(l.subnetId)
  {
    LeaseText(l);
    SubnetIdText(l);
    RouterText(l);
    ServerText(l);
    StartText(l);
    StopText(l);
  }

  lemma DnsHeadText()
    ensures Say(["set", "service", "dns", "forwarding"]) == "set service dns forwarding"
  {
    SayThree("set", "service", "dns");
    Last(["set", "service", "dns"], "forwarding", "set service dns ");
    assert ["set", "service", "dns", "forwarding"] == ["set", "service", "dns"] + ["forwarding"];
    assert "set service dns " + "forwarding" == "set service dns forwarding";
  }

  lemma DnsText(word: string, value: string, text: string)
    requires text == " " + word + " "
    ensures Print(DnsLine([word, value])) == "set service dns forwarding" + text + value
  {
    DnsHeadText();
    One(["set", "service", "dns", "forwarding"], "set service dns forwarding", word, value, text);
  }

  // First the blocks, then the cache, then the routers.
  lemma DnsTexts(lans: seq<ServiceLan>, i: nat)
    requires i < |lans|
    ensures |DnsLines(lans)| == 2 * |lans| + 1
    ensures Print(DnsLines(lans)[i]) == "set service dns forwarding" + " allow-from " + lans[i].prefix
    ensures Print(DnsLines(lans)[|lans|]) == "set service dns forwarding" + " cache-size " + "0"
    ensures Print(DnsLines(lans)[|lans| + 1 + i]) == "set service dns forwarding" + " listen-address " + lans[i].lanIp
  {
    DnsText("allow-from", lans[i].prefix, " allow-from ");
    DnsText("listen-address", lans[i].lanIp, " listen-address ");
    DnsText("cache-size", "0", " cache-size ");
  }

  lemma SshText(s: ServiceSection)
    ensures SshLines(s) == [] <==> !s.sshEnabled
    ensures s.sshEnabled ==>
      |SshLines(s)| == 1 && Print(SshLines(s)[0]) == "set service ssh" + " port " + Decimal.Itoa(s.sshPort)
  {
    if s.sshEnabled {
      SayThree("set", "service", "ssh");
      assert "set" + " " + "service" + " " + "ssh" == "set service ssh";
      One(["set", "service", "ssh"], "set service ssh", "port", Decimal.Itoa(s.sshPort), " port ");
      assert ["set", "service", "ssh"] + ["port", Decimal.Itoa(s.sshPort)]
        == ["set", "service", "ssh", "port", Decimal.Itoa(s.sshPort)];
    }
  }

  // ---- nat.tmpl ----

  function NatBegin(r: NatRule): string {
    "set nat source rule " + Decimal.Itoa(r.ruleId)
  }

  lemma NatHeadText(r: NatRule)
    ensures Say(["set", "nat", "source", "rule", Decimal.Itoa(r.ruleId)]) == NatBegin(r)
  {
    var start := ["set", "nat", "source", "rule"];
    SayThree("set", "nat", "source");
    Last(["set", "nat", "source"], "rule", "set nat source ");
    assert start == ["set", "nat", "source"] + ["rule"];
    Last(start, Decimal.Itoa(r.ruleId), "set nat source rule ");
    assert start + [Decimal.Itoa(r.ruleId)] == ["set", "nat", "source", "rule", Decimal.Itoa(r.ruleId)];
  }

  // The three lines of a rule.
  lemma NatText(r: NatRule)
    ensures |NatLines(r)| == 3
    ensures Print(NatLines(r)[0]) == NatBegin(r) + " outbound-interface name " + r.outbound
    ensures Print(NatLines(r)[1]) == NatBegin(r) + " source address " + r.source
    ensures Print(NatLines(r)[2]) == NatBegin(r) + " translation address " + r.translation
  {
    OutboundText(r);
    SourceText(r);
    TranslationText(r);
  }

  lemma OutboundText(r: NatRule)
    ensures Print(NatLines(r)[0]) == NatBegin(r) + " outbound-interface name " + r.outbound
  {
    NatLineText(r, "outbound-interface", "name", r.outbound, " outbound-interface name ");
  }

  lemma SourceText(r: NatRule)
    ensures Print(NatLines(r)[1]) == NatBegin(r) + " source address " + r.source
  {
    NatLineText(r, "source", "address", r.source, " source address ");
  }

  lemma TranslationText(r: NatRule)
    ensures Print(NatLines(r)[2]) == NatBegin(r) + " translation address " + r.translation
  {
    NatLineText(r, "translation", "address", r.translation, " translation address ");
  }

  lemma NatLineText(r: NatRule, a: string, b: string, value: string, text: string)
    requires text == " " + (a + " " + b) + " "
    ensures Print(Bares(["set", "nat", "source", "rule", Decimal.Itoa(r.ruleId)] + [a, b, value]))
      == NatBegin(r) + text + value
  {
    NatHeadText(r);
    Two(["set", "nat", "source", "rule", Decimal.Itoa(r.ruleId)], NatBegin(r), a, b, value, text);
  }
}
