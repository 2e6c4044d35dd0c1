// Printing normalized data as set commands: internal/templates.
module Templates {
  import opened Wrappers
  import opened RenderData
  import opened Tokenizer
  import Text
  import Decimal
  import Sorting

  // ---- allowed VLANs ----

  predicate Climbs(s: seq<int>) {
    forall i, j | 0 <= i < j < |s| :: s[i] < s[j]
  }

  function InsertId(s: seq<int>, id: int): (r: seq<int>)
    requires Climbs(s)
    ensures Climbs(r) && forall x :: x in r <==> x in s || x == id
  {
    if s == [] || id < s[0] then [id] + s
    else if id == s[0] then s
    else
      var rest := InsertId(s[1..], id);
      assert forall i | 0 <= i < |rest| :: rest[i] in rest;
      [s[0]] + rest
  }

  // The ids of the VIFs that a port is a member of, ascending, each once.
  function AllowedVlans(vifs: seq<Vif>, member: string): (r: seq<int>)
    ensures Climbs(r) && forall id :: id in r <==> exists v :: v in vifs && member in v.members && v.id == id
  {
    if vifs == [] then []
    else
      var n := |vifs| - 1;
      var front := AllowedVlans(vifs[..n], member);
      assert vifs == vifs[..n] + [vifs[n]];
      if member in vifs[n].members then InsertId(front, vifs[n].id) else front
  }

  lemma {:induction false} ClimbsUnique(a: seq<int>, b: seq<int>)
    requires Climbs(a) && Climbs(b) && forall x :: x in a <==> x in b
    ensures a == b
  {
    if a != [] && b != [] {
      assert a[0] in b && b[0] in a;
      assert a == [a[0]] + a[1..] && b == [b[0]] + b[1..];
      forall x
        ensures x in a[1..] <==> x in b[1..]
      {
        assert x in a[1..] <==> x in a && x != a[0];
        assert x in b[1..] <==> x in b && x != b[0];
      }
      ClimbsUnique(a[1..], b[1..]);
    } else {
      NonEmpty(a, b);
      NonEmpty(b, a);
    }
  }

  lemma NonEmpty(a: seq<int>, b: seq<int>)
    requires forall x | x in a :: x in b
    ensures a != [] ==> b != []
  {
    if a != [] {
      var x := a[0];
      assert x in a;
    }
  }

  // allowedVLANsForMember
  method AllowedVlansForMember(vifs: seq<Vif>, member: string) returns (r: seq<int>)
    ensures r == AllowedVlans(vifs, member)
  {
    var seen: set<int> := {};
    var ids: seq<int> := [];
    for i := 0 to |vifs|
      invariant Sorting.Distinct(ids) && forall x :: x in seen <==> x in ids
      invariant forall x :: x in ids <==> x in AllowedVlans(vifs[..i], member)
    {
      assert vifs[..i + 1][..i] == vifs[..i];
      if member !in vifs[i].members {
        continue;
      }
      if vifs[i].id in seen {
        continue;
      }
      seen := seen + {vifs[i].id};
      ids := ids + [vifs[i].id];
    }
    assert vifs[..|vifs|] == vifs;
    r := SortIds(ids);
    ClimbsUnique(r, AllowedVlans(vifs, member));
  }

  method SortIds(ids: seq<int>) returns (r: seq<int>)
    requires Sorting.Distinct(ids)
    ensures Climbs(r) && forall x :: x in r <==> x in ids
  {
    r := Sorting.Sort(ids, (a: int, b: int) => a < b);
    Sorting.SameElements(r, ids);
    Sorting.DistinctPermuted(ids, r);
  }

  // ---- the lines, word by word ----

  type Line = seq<Word>

  function Bares(words: seq<string>): Line {
    seq(|words|, i requires 0 <= i < |words| => Bare(words[i]))
  }

  function Concat<T>(lists: seq<seq<T>>): seq<T> {
    if lists == [] then [] else Concat(lists[..|lists| - 1]) + lists[|lists| - 1]
  }

  lemma {:induction false} InLists<T>(lists: seq<seq<T>>, line: T) returns (k: nat)
    requires line in Concat(lists)
    ensures k < |lists| && line in lists[k]
  {
    var n := |lists| - 1;
    if line in lists[n] {
      k := n;
    } else {
      k := InLists(lists[..n], line);
    }
  }

  function BridgeHead(b: Bridge): seq<string> {
    ["set", "interfaces", "bridge", b.name]
  }

  function MemberHead(b: Bridge, member: string): seq<string> {
    BridgeHead(b) + ["member", "interface", member]
  }

  function AllowedLine(b: Bridge, member: string, id: int): Line {
    Bares(MemberHead(b, member) + ["allowed-vlan", Decimal.Itoa(id)])
  }

  function NativeLine(b: Bridge, member: string): Line {
    Bares(MemberHead(b, member) + ["native-vlan", "1"])
  }

  function AllowedLines(b: Bridge, member: string, ids: seq<int>): seq<Line> {
    seq(|ids|, i requires 0 <= i < |ids| => AllowedLine(b, member, ids[i]))
  }

  function MemberLines(b: Bridge, member: string): seq<Line> {
    var ids := AllowedVlans(b.vifs, member);
    if ids == [] then [Bares(MemberHead(b, member))] else AllowedLines(b, member, ids) + [NativeLine(b, member)]
  }

  function VifHead(b: Bridge, v: Vif): seq<string> {
    BridgeHead(b) + ["vif", Decimal.Itoa(v.id)]
  }

  function DescriptionLine(head: seq<string>, description: string): Line {
    Bares(head + ["description"]) + [Quoted(description)]
  }

  function VifLines(b: Bridge, v: Vif): seq<Line> {
    [Bares(VifHead(b, v) + ["address", v.address]), DescriptionLine(VifHead(b, v), v.description)]
  }

  function HeadLines(b: Bridge): seq<Line> {
    [Bares(BridgeHead(b) + ["address", b.address]), DescriptionLine(BridgeHead(b), b.description)]
  }

  function MemberLists(b: Bridge): seq<seq<Line>> {
    seq(|b.members|, i requires 0 <= i < |b.members| => MemberLines(b, b.members[i]))
  }

  function VifLists(b: Bridge): seq<seq<Line>> {
    seq(|b.vifs|, i requires 0 <= i < |b.vifs| => VifLines(b, b.vifs[i]))
  }

  // bridge.tmpl
  function BridgeLines(b: Bridge): seq<Line> {
    HeadLines(b) + Concat(MemberLists(b)) + Concat(VifLists(b))
  }

  // ethernet.tmpl
  function EthernetLine(e: Ethernet): Line {
    DescriptionLine(["set", "interfaces", "ethernet", e.name], e.description)
  }

  function BridgeLists(bridges: seq<Bridge>): seq<seq<Line>> {
    seq(|bridges|, i requires 0 <= i < |bridges| => BridgeLines(bridges[i]))
  }

  function EthernetLines(ethernets: seq<Ethernet>): seq<Line> {
    seq(|ethernets|, i requires 0 <= i < |ethernets| => EthernetLine(ethernets[i]))
  }

  function InterfaceLines(s: InterfacesSection): seq<Line> {
    Concat(BridgeLists(s.bridges)) + EthernetLines(s.ethernets)
  }

  function DhcpHead(l: ServiceLan): seq<string> {
    ["set", "service", "dhcp-server", "shared-network-name", l.name, "subnet", l.prefix]
  }

  // dhcp-server.tmpl, for one LAN
  function DhcpLines(l: ServiceLan): seq<Line> {
    [Bares(DhcpHead(l) + ["lease", Decimal.Itoa(l.leaseSecs)]),
     Bares(DhcpHead(l) + ["option", "default-router", l.lanIp]),
     Bares(DhcpHead(l) + ["option", "name-server", l.lanIp]),
     Bares(DhcpHead(l) + ["range", "0", "start", l.rangeStart]),
     Bares(DhcpHead(l) + ["range", "0", "stop", l.rangeStop]),
     Bares(DhcpHead(l) + ["subnet-id", Decimal.Itoa(l.subnetId)])]
  }

  function DnsLine(words: seq<string>): Line {
    Bares(["set", "service", "dns", "forwarding"] + words)
  }

  // dns-forwarding.tmpl
  function DnsLines(lans: seq<ServiceLan>): seq<Line> {
    seq(|lans|, i requires 0 <= i < |lans| => DnsLine(["allow-from", lans[i].prefix]))
    + (if lans == [] then [] else [DnsLine(["cache-size", "0"])])
    + seq(|lans|, i requires 0 <= i < |lans| => DnsLine(["listen-address", lans[i].lanIp]))
  }

  function DhcpLists(lans: seq<ServiceLan>): seq<seq<Line>> {
    seq(|lans|, i requires 0 <= i < |lans| => DhcpLines(lans[i]))
  }

  function AllDhcpLines(lans: seq<ServiceLan>): seq<Line> {
    Concat(DhcpLists(lans))
  }

  // ssh.tmpl
  function SshLines(s: ServiceSection): seq<Line> {
    if s.sshEnabled then [Bares(["set", "service", "ssh", "port", Decimal.Itoa(s.sshPort)])] else []
  }

  // nat.tmpl, for one rule
  function NatLines(r: NatRule): seq<Line> {
    var head := ["set", "nat", "source", "rule", Decimal.Itoa(r.ruleId)];
    [Bares(head + ["outbound-interface", "name", r.outbound]),
     Bares(head + ["source", "address", r.source]),
     Bares(head + ["translation", "address", r.translation])]
  }

  function NatLists(rules: seq<NatRule>): seq<seq<Line>> {
    seq(|rules|, i requires 0 <= i < |rules| => NatLines(rules[i]))
  }

  function AllNatLines(rules: seq<NatRule>): seq<Line> {
    Concat(NatLists(rules))
  }

  function ServiceLines(s: ServiceSection): seq<Line> {
    AllDhcpLines(s.lans) + DnsLines(s.lans) + SshLines(s)
  }

  // All lines in the order in which Render puts the sections.
  function AllLines(d: Data): seq<Line> {
    InterfaceLines(d.interfaces) + ServiceLines(d.services) + AllNatLines(d.rules)
  }

  // ---- text ----

  // vyosQuote refuses a value.
  predicate Refused(w: Word) {
    w.Quoted? && !Quotable(w.text)
  }

  predicate Printing(lines: seq<Line>) {
    forall i, j | 0 <= i < |lines| && 0 <= j < |lines[i]| :: !Refused(lines[i][j])
  }

  function Print(line: Line): string {
    if line == [] then "" else PrintWords(line)
  }

  function Printed(lines: seq<Line>): seq<string> {
    seq(|lines|, i requires 0 <= i < |lines| => Print(lines[i]))
  }

  // Every line followed by a newline.
  function Unlines(lines: seq<string>): string {
    if lines == [] then "" else Text.Join(lines, '\n') + "\n"
  }

  // The raw output of the three templates, blank lines included; None if vyosQuote
  // fails.
  function InterfaceText(s: InterfacesSection): Option<string> {
    var lines := InterfaceLines(s);
    if Printing(lines) then Some(Text.Join(Printed(lines) + ["", ""], '\n')) else None
  }

  function ServiceText(s: ServiceSection): string {
    Text.Join(
      [""] + Printed(AllDhcpLines(s.lans)) + [""] + Printed(DnsLines(s.lans))
        + [""] + Printed(SshLines(s)) + [""], '\n')
  }

  function NatText(rules: seq<NatRule>): string {
    Text.Join([""] + Printed(AllNatLines(rules)) + [""], '\n')
  }

  // ---- normalizeSection ----

  predicate NotBlank(line: string) {
    Text.TrimSpace(line) != ""
  }

  function Filter(lines: seq<string>, p: string -> bool): seq<string> {
    if lines == [] then []
    else
      var n := |lines| - 1;
      if p(lines[n]) then Filter(lines[..n], p) + [lines[n]] else Filter(lines[..n], p)
  }

  // The lines that are not blank.
  function Kept(lines: seq<string>): seq<string> {
    Filter(lines, NotBlank)
  }

  function DropLeft(s: string): string {
    if s != [] && s[0] == '\n' then DropLeft(s[1..]) else s
  }

  function DropRight(s: string): string {
    if s != [] && s[|s| - 1] == '\n' then DropRight(s[..|s| - 1]) else s
  }

  // strings.Trim(s, "\n")
  function TrimNewlines(s: string): string {
    DropRight(DropLeft(s))
  }

  // The lines of a text with property p, each ended by a newline.
  function SectionWith(text: string, p: string -> bool): string {
    Unlines(Filter(Text.Split(Text.UnixNewlines(text), '\n'), p))
  }

  // The lines of a text that are not blank, each ended by a newline.
  function Section(text: string): string {
    SectionWith(text, NotBlank)
  }

  lemma {:induction false} FilterConcat(a: seq<string>, b: seq<string>, p: string -> bool)
    ensures Filter(a + b, p) == Filter(a, p) + Filter(b, p)
  {
    if b == [] {
      assert a + b == a;
    } else {
      var n := |b| - 1;
      FilterConcat(a, b[..n], p);
      assert (a + b)[..|a + b| - 1] == a + b[..n];
    }
  }

  lemma {:induction false} SplitEnd(s: string)
    ensures Text.Split(s + "\n", '\n') == Text.Split(s, '\n') + [""]
  {
    if s == [] {
      assert "\n"[1..] == "" && Text.Split("\n", '\n') == [""] + Text.Split("", '\n');
    } else {
      SplitEnd(s[1..]);
      assert (s + "\n")[1..] == s[1..] + "\n";
    }
  }

  // A newline at either end only adds an empty line.
  lemma FilterAround(s: string, p: string -> bool)
    requires !p("")
    ensures Filter(Text.Split("\n" + s, '\n'), p) == Filter(Text.Split(s, '\n'), p)
    ensures Filter(Text.Split(s + "\n", '\n'), p) == Filter(Text.Split(s, '\n'), p)
  {
    var lines := Text.Split(s, '\n');
    SplitEnd(s);
    FilterConcat(lines, [""], p);
    assert ("\n" + s)[1..] == s;
    assert Text.Split("\n" + s, '\n') == [""] + lines;
    FilterConcat([""], lines, p);
    assert Filter([""], p) == [];
  }

  lemma {:induction false} DropLeftFilter(s: string, p: string -> bool)
    requires !p("")
    ensures Filter(Text.Split(DropLeft(s), '\n'), p) == Filter(Text.Split(s, '\n'), p)
  {
    if s != [] && s[0] == '\n' {
      DropLeftFilter(s[1..], p);
      FilterAround(s[1..], p);
      assert s == "\n" + s[1..];
    }
  }

  lemma {:induction false} DropRightFilter(s: string, p: string -> bool)
    requires !p("")
    ensures Filter(Text.Split(DropRight(s), '\n'), p) == Filter(Text.Split(s, '\n'), p)
  {
    if s != [] && s[|s| - 1] == '\n' {
      DropRightFilter(s[..|s| - 1], p);
      FilterAround(s[..|s| - 1], p);
      assert s == s[..|s| - 1] + "\n";
    }
  }

  lemma TrimKeeps(s: string)
    ensures Kept(Text.Split(TrimNewlines(s), '\n')) == Kept(Text.Split(s, '\n'))
  {
    DropLeftFilter(s, NotBlank);
    DropRightFilter(DropLeft(s), NotBlank);
  }

  lemma NothingKept()
    ensures Kept(Text.Split("", '\n')) == []
  {
  }

  method NormalizeSection(text: string) returns (r: string)
    ensures r == Section(text)
  {
    var unix := Text.UnixNewlines(text);
    var trimmed := TrimNewlines(unix);
    TrimKeeps(unix);
    if trimmed == "" {
      NothingKept();
      return "";
    }
    var lines := Text.Split(trimmed, '\n');
    var out: seq<string> := [];
    for i := 0 to |lines|
      invariant out == Kept(lines[..i])
    {
      assert lines[..i + 1][..i] == lines[..i];
      if Text.TrimSpace(lines[i]) == "" {
        continue;
      }
      out := out + [lines[i]];
    }
    assert lines[..|lines|] == lines;
    if |out| == 0 {
      return "";
    }
    return Text.Join(out, '\n') + "\n";
  }

  method RenderSections(interfaces: string, services: string, rules: string) returns (r: string)
    ensures r == Section(interfaces) + Section(services) + Section(rules)
  {
    r := NormalizeSection(interfaces);
    var section := NormalizeSection(services);
    r := r + section;
    section := NormalizeSection(rules);
    r := r + section;
  }

  // Render; None if vyosQuote fails.
  method Render(d: Data) returns (r: Option<string>)
    ensures r == Rendered(d)
  {
    var interfaces := InterfaceText(d.interfaces);
    if interfaces.None? {
      return None;
    }
    var text := RenderSections(interfaces.value, ServiceText(d.services), NatText(d.rules));
    return Some(text);
  }

  function Rendered(d: Data): Option<string> {
    match InterfaceText(d.interfaces)
    case None => None
    case Some(text) => Some(Section(text) + Section(ServiceText(d.services)) + Section(NatText(d.rules)))
  }
}
