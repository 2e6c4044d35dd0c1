// Reading a whole rendered configuration back: nothing of the data is lost, invented or
// exchanged on the way to the device.
module ReadAll {
  import opened Wrappers
  import opened RenderData
  import opened Tokenizer
  import Decimal
  import opened Templates
  import opened ReadBack
  import RoundTrip

  // ---- what a device learns ----

  // Bridges without the members of their VIFs, ethernets, LANs, the three lists of the
  // name server, ports, and NAT rules.
  datatype View = View(
    bridges: seq<Bridge>, ethernets: seq<Ethernet>, lans: seq<LanView>, allowFrom: seq<string>,
    cacheSize: seq<string>, listen: seq<string>, ports: seq<int>, rules: seq<NatRule>)

  const NOTHING := View([], [], [], [], [], [], [], [])
  const NO_RULE := NatRule(0, "", "", "")

  // The first line of a group starts a new element, the others belong to the last one.
  function Group<A>(f: (A, Line) -> A, zero: A, starts: Line -> bool, list: seq<A>, line: Line): seq<A> {
    if starts(line) then list + [f(zero, line)]
    else if list == [] then list
    else list[..|list| - 1] + [f(list[|list| - 1], line)]
  }

  predicate StartsBridge(line: Line) {
    At(line, 4) == "address"
  }

  predicate StartsLan(line: Line) {
    At(line, 7) == "lease"
  }

  predicate StartsRule(line: Line) {
    At(line, 5) == "outbound-interface"
  }

  function TakeBridges(list: seq<Bridge>, line: Line): seq<Bridge> {
    Group(TakeBridge, NO_BRIDGE, StartsBridge, list, line)
  }

  function TakeLans(list: seq<LanView>, line: Line): seq<LanView> {
    Group(TakeLan, NO_LAN, StartsLan, list, line)
  }

  function TakeRules(list: seq<NatRule>, line: Line): seq<NatRule> {
    Group(TakeRule, NO_RULE, StartsRule, list, line)
  }

  function TakeDns(v: View, line: Line): View {
    if At(line, 4) == "allow-from" then v.(allowFrom := v.allowFrom + [At(line, 5)])
    else if At(line, 4) == "cache-size" then v.(cacheSize := v.cacheSize + [At(line, 5)])
    else v.(listen := v.listen + [At(line, 5)])
  }

  function TakeLine(v: View, line: Line): View {
    if At(line, 1) == "nat" then v.(rules := TakeRules(v.rules, line))
    else if At(line, 2) == "bridge" then v.(bridges := TakeBridges(v.bridges, line))
    else if At(line, 2) == "ethernet" then v.(ethernets := v.ethernets + [Ethernet(At(line, 3), At(line, 5))])
    else if At(line, 2) == "dhcp-server" then v.(lans := TakeLans(v.lans, line))
    else if At(line, 2) == "dns" then TakeDns(v, line)
    else v.(ports := v.ports + [NumberAt(line, 4)])
  }

  function LanViewOf(l: ServiceLan): LanView {
    LanView(l.name, l.prefix, l.leaseSecs, l.lanIp, l.lanIp, l.rangeStart, l.rangeStop, l.subnetId)
  }

  function Bares(bridges: seq<Bridge>): seq<Bridge> {
    seq(|bridges|, i requires 0 <= i < |bridges| => ReadBack.Bare(bridges[i]))
  }

  function LanViews(lans: seq<ServiceLan>): seq<LanView> {
    seq(|lans|, i requires 0 <= i < |lans| => LanViewOf(lans[i]))
  }

  // What the data says.
  function ViewOf(d: Data): View {
    var lans := d.services.lans;
    View(
      Bares(d.interfaces.bridges), d.interfaces.ethernets, LanViews(lans),
      seq(|lans|, i requires 0 <= i < |lans| => lans[i].prefix), if lans == [] then [] else ["0"],
      seq(|lans|, i requires 0 <= i < |lans| => lans[i].lanIp),
      if d.services.sshEnabled then [d.services.sshPort] else [], d.rules)
  }

  // ---- groups of lines ----

  lemma {:induction false} TakeGroup<A>(
      f: (A, Line) -> A, zero: A, starts: Line -> bool, g: (seq<A>, Line) -> seq<A>, list: seq<A>, lines: seq<Line>)
    requires forall l, line :: g(l, line) == Group(f, zero, starts, l, line)
    requires lines != [] && starts(lines[0]) && forall i | 1 <= i < |lines| :: !starts(lines[i])
    ensures Take(g, list, lines) == list + [Take(f, zero, lines)]
  {
    var n := |lines| - 1;
    assert lines == lines[..n] + [lines[n]];
    TakeLast(f, zero, lines[..n], lines[n]);
    TakeLast(g, list, lines[..n], lines[n]);
    if n > 0 {
      TakeGroup(f, zero, starts, g, list, lines[..n]);
      GroupMore(f, zero, starts, list, Take(f, zero, lines[..n]), lines[n]);
    }
  }

  lemma GroupMore<A>(f: (A, Line) -> A, zero: A, starts: Line -> bool, list: seq<A>, last: A, line: Line)
    requires !starts(line)
    ensures Group(f, zero, starts, list + [last], line) == list + [f(last, line)]
  {
    assert (list + [last])[..|list|] == list;
  }

  // Lines of one kind act on one part only.
  lemma {:induction false} TakePart<V, A>(
      f: (V, Line) -> V, g: (A, Line) -> A, put: A -> V, a: A, lines: seq<Line>)
    requires forall x, line | line in lines :: f(put(x), line) == put(g(x, line))
    ensures Take(f, put(a), lines) == put(Take(g, a, lines))
  {
    if lines != [] {
      var n := |lines| - 1;
      assert lines[n] in lines && forall line | line in lines[..n] :: line in lines;
      TakePart(f, g, put, a, lines[..n]);
    }
  }

  function Mapped<E, A>(items: seq<E>, m: E -> A): seq<A> {
    seq(|items|, i requires 0 <= i < |items| => m(items[i]))
  }

  // The lines of one item add one element to a list.
  ghost predicate Adds<V, E, A>(
      f: (V, Line) -> V, put: seq<A> -> V, lines: E -> seq<Line>, view: E -> A, list: seq<A>, e: E) {
    Take(f, put(list), lines(e)) == put(list + [view(e)])
  }

  ghost predicate AddsOne<V, E, A>(
      f: (V, Line) -> V, put: seq<A> -> V, line: E -> Line, view: E -> A, list: seq<A>, e: E) {
    f(put(list), line(e)) == put(list + [view(e)])
  }

  // Items whose lines each add one element add all of them.
  lemma {:induction false} TakeItems<V, E, A>(
      f: (V, Line) -> V, put: seq<A> -> V, items: seq<E>, lines: E -> seq<Line>, view: E -> A, list: seq<A>)
    requires forall x, e | e in items :: Adds(f, put, lines, view, x, e)
    ensures Take(f, put(list), Concat(Mapped(items, lines))) == put(list + Mapped(items, view))
  {
    if items == [] {
      assert list + Mapped(items, view) == list;
    } else {
      var n := |items| - 1;
      assert items[n] in items && forall e | e in items[..n] :: e in items;
      TakeItems(f, put, items[..n], lines, view, list);
      MappedLast(items, lines);
      MappedLast(items, view);
      ConcatLast(Mapped(items[..n], lines), lines(items[n]));
      var before := list + Mapped(items[..n], view);
      TakeConcat(f, put(list), Concat(Mapped(items[..n], lines)), lines(items[n]));
      assert Adds(f, put, lines, view, before, items[n]);
      assert before + [view(items[n])] == list + Mapped(items, view);
    }
  }

  lemma MappedLast<E, A>(items: seq<E>, m: E -> A)
    requires items != []
    ensures Mapped(items, m) == Mapped(items[..|items| - 1], m) + [m(items[|items| - 1])]
  {
  }

  lemma ConcatLast<T>(lists: seq<seq<T>>, last: seq<T>)
    ensures Concat(lists + [last]) == Concat(lists) + last
  {
    assert (lists + [last])[..|lists|] == lists;
  }

  lemma TakeLast<A>(f: (A, Line) -> A, a: A, lines: seq<Line>, last: Line)
    ensures Take(f, a, lines + [last]) == f(Take(f, a, lines), last)
  {
    assert (lines + [last])[..|lines|] == lines;
  }

  // The same where every item has one line.
  lemma {:induction false} TakeSingles<V, E, A>(
      f: (V, Line) -> V, put: seq<A> -> V, items: seq<E>, line: E -> Line, view: E -> A, list: seq<A>)
    requires forall x, e | e in items :: AddsOne(f, put, line, view, x, e)
    ensures Take(f, put(list), Mapped(items, line)) == put(list + Mapped(items, view))
  {
    if items == [] {
      assert list + Mapped(items, view) == list;
    } else {
      var n := |items| - 1;
      assert items[n] in items && forall e | e in items[..n] :: e in items;
      TakeSingles(f, put, items[..n], line, view, list);
      MappedLast(items, line);
      MappedLast(items, view);
      var before := list + Mapped(items[..n], view);
      TakeLast(f, put(list), Mapped(items[..n], line), line(items[n]));
      assert AddsOne(f, put, line, view, before, items[n]);
      assert before + [view(items[n])] == list + Mapped(items, view);
    }
  }

  // ---- bridges ----

  predicate OfBridge(line: Line) {
    At(line, 1) == "interfaces" && At(line, 2) == "bridge"
  }

  lemma MemberOfBridge(b: Bridge, member: string, line: Line)
    requires line in MemberLines(b, member)
    ensures OfBridge(line) && !StartsBridge(line)
  {
    var k :| 0 <= k < |MemberLines(b, member)| && MemberLines(b, member)[k] == line;
    assert At(line, 4) == "member";
  }

  lemma VifOfBridge(b: Bridge, vif: Vif, line: Line)
    requires line in VifLines(b, vif)
    ensures OfBridge(line) && !StartsBridge(line)
  {
    VifWords(b, vif);
  }

  lemma TailOfBridge(b: Bridge, line: Line)
    requires line in Concat(MemberLists(b)) || line in Concat(VifLists(b))
    ensures OfBridge(line) && !StartsBridge(line)
  {
    if line in Concat(MemberLists(b)) {
      var k := InLists(MemberLists(b), line);
      MemberOfBridge(b, b.members[k], line);
    } else {
      var k := InLists(VifLists(b), line);
      VifOfBridge(b, b.vifs[k], line);
    }
  }

  lemma LinesOfBridge(b: Bridge, i: nat)
    requires i < |BridgeLines(b)|
    ensures OfBridge(BridgeLines(b)[i]) && (StartsBridge(BridgeLines(b)[i]) <==> i == 0)
  {
    if i >= 2 {
      var tail := Concat(MemberLists(b)) + Concat(VifLists(b));
      assert BridgeLines(b) == HeadLines(b) + tail;
      assert BridgeLines(b)[i] == tail[i - 2];
      TailOfBridge(b, BridgeLines(b)[i]);
    } else {
      assert BridgeLines(b)[i] == HeadLines(b)[i];
    }
  }

  lemma BridgeTaken(v: View, b: Bridge)
    ensures Take(TakeLine, v, BridgeLines(b)) == v.(bridges := v.bridges + [ReadBack.Bare(b)])
  {
    var lines := BridgeLines(b);
    forall i | 0 <= i < |lines|
      ensures OfBridge(lines[i]) && (StartsBridge(lines[i]) <==> i == 0)
    {
      LinesOfBridge(b, i);
    }
    assert lines[0] == HeadLines(b)[0];
    TakePart(TakeLine, TakeBridges, (l: seq<Bridge>) => v.(bridges := l), v.bridges, lines);
    TakeGroup(TakeBridge, NO_BRIDGE, StartsBridge, TakeBridges, v.bridges, lines);
    BridgeReadBack(b);
  }

  lemma BridgesTaken(v: View, bridges: seq<Bridge>)
    ensures Take(TakeLine, v, Concat(BridgeLists(bridges))) == v.(bridges := v.bridges + Bares(bridges))
  {
    var put := (l: seq<Bridge>) => v.(bridges := l);
    forall x, b
      ensures Adds(TakeLine, put, BridgeLines, ReadBack.Bare, x, b)
    {
      BridgeTaken(v.(bridges := x), b);
    }
    TakeItems(TakeLine, put, bridges, BridgeLines, ReadBack.Bare, v.bridges);
    assert BridgeLists(bridges) == Mapped(bridges, BridgeLines);
    assert Bares(bridges) == Mapped(bridges, ReadBack.Bare);
  }

  // ---- ethernets ----

  lemma EthernetTaken(v: View, e: Ethernet)
    ensures TakeLine(v, EthernetLine(e)) == v.(ethernets := v.ethernets + [e])
  {
    assert EthernetLine(e)[5] == Quoted(e.description);
  }

  lemma EthernetsTaken(v: View, ethernets: seq<Ethernet>)
    ensures Take(TakeLine, v, EthernetLines(ethernets)) == v.(ethernets := v.ethernets + ethernets)
  {
    var put := (l: seq<Ethernet>) => v.(ethernets := l);
    var same := (e: Ethernet) => e;
    forall x, e
      ensures AddsOne(TakeLine, put, EthernetLine, same, x, e)
    {
      EthernetTaken(v.(ethernets := x), e);
    }
    TakeSingles(TakeLine, put, ethernets, EthernetLine, same, v.ethernets);
    assert EthernetLines(ethernets) == Mapped(ethernets, EthernetLine);
    assert Mapped(ethernets, same) == ethernets;
  }

  // ---- LANs ----

  ghost predicate Fits(l: ServiceLan) {
    Decimal.MIN_INT <= l.leaseSecs <= Decimal.MAX_INT && Decimal.MIN_INT <= l.subnetId <= Decimal.MAX_INT
  }

  lemma LanLine(l: ServiceLan, i: nat)
    requires i < 6
    ensures At(DhcpLines(l)[i], 1) == "service" && At(DhcpLines(l)[i], 2) == "dhcp-server"
    ensures StartsLan(DhcpLines(l)[i]) <==> i == 0
  {
  }

  lemma LanTaken(v: View, l: ServiceLan)
    requires Fits(l)
    ensures Take(TakeLine, v, DhcpLines(l)) == v.(lans := v.lans + [LanViewOf(l)])
  {
    var lines := DhcpLines(l);
    forall i | 0 <= i < |lines|
      ensures At(lines[i], 1) == "service" && At(lines[i], 2) == "dhcp-server" && (StartsLan(lines[i]) <==> i == 0)
    {
      LanLine(l, i);
    }
    TakePart(TakeLine, TakeLans, (l: seq<LanView>) => v.(lans := l), v.lans, lines);
    TakeGroup(TakeLan, NO_LAN, StartsLan, TakeLans, v.lans, lines);
    LanReadBack(l);
  }

  lemma LansTaken(v: View, lans: seq<ServiceLan>)
    requires forall l | l in lans :: Fits(l)
    ensures Take(TakeLine, v, AllDhcpLines(lans)) == v.(lans := v.lans + LanViews(lans))
  {
    var put := (l: seq<LanView>) => v.(lans := l);
    forall x, l | l in lans
      ensures Adds(TakeLine, put, DhcpLines, LanViewOf, x, l)
    {
      LanTaken(v.(lans := x), l);
    }
    TakeItems(TakeLine, put, lans, DhcpLines, LanViewOf, v.lans);
    assert DhcpLists(lans) == Mapped(lans, DhcpLines);
    assert LanViews(lans) == Mapped(lans, LanViewOf);
  }

  // ---- name server and SSH ----

  function Prefixes(lans: seq<ServiceLan>): seq<string> {
    seq(|lans|, i requires 0 <= i < |lans| => lans[i].prefix)
  }

  function Routers(lans: seq<ServiceLan>): seq<string> {
    seq(|lans|, i requires 0 <= i < |lans| => lans[i].lanIp)
  }

  function AllowLines(lans: seq<ServiceLan>): seq<Line> {
    seq(|lans|, i requires 0 <= i < |lans| => DnsLine(["allow-from", lans[i].prefix]))
  }

  function ListenLines(lans: seq<ServiceLan>): seq<Line> {
    seq(|lans|, i requires 0 <= i < |lans| => DnsLine(["listen-address", lans[i].lanIp]))
  }

  lemma DnsTaken(v: View, word: string, value: string)
    ensures TakeLine(v, DnsLine([word, value]))
      == if word == "allow-from" then v.(allowFrom := v.allowFrom + [value])
         else if word == "cache-size" then v.(cacheSize := v.cacheSize + [value])
         else v.(listen := v.listen + [value])
  {
    var line := DnsLine([word, value]);
    assert At(line, 1) == "service" && At(line, 2) == "dns" && At(line, 4) == word && At(line, 5) == value;
  }

  function AllowLine(l: ServiceLan): Line {
    DnsLine(["allow-from", l.prefix])
  }

  function ListenLine(l: ServiceLan): Line {
    DnsLine(["listen-address", l.lanIp])
  }

  lemma AllowTaken(v: View, lans: seq<ServiceLan>)
    ensures Take(TakeLine, v, AllowLines(lans)) == v.(allowFrom := v.allowFrom + Prefixes(lans))
  {
    var put := (l: seq<string>) => v.(allowFrom := l);
    var prefix := (l: ServiceLan) => l.prefix;
    forall x, l
      ensures AddsOne(TakeLine, put, AllowLine, prefix, x, l)
    {
      DnsTaken(v.(allowFrom := x), "allow-from", l.prefix);
    }
    TakeSingles(TakeLine, put, lans, AllowLine, prefix, v.allowFrom);
    assert AllowLines(lans) == Mapped(lans, AllowLine) && Prefixes(lans) == Mapped(lans, prefix);
  }

  lemma ListenTaken(v: View, lans: seq<ServiceLan>)
    ensures Take(TakeLine, v, ListenLines(lans)) == v.(listen := v.listen + Routers(lans))
  {
    var put := (l: seq<string>) => v.(listen := l);
    var router := (l: ServiceLan) => l.lanIp;
    forall x, l
      ensures AddsOne(TakeLine, put, ListenLine, router, x, l)
    {
      DnsTaken(v.(listen := x), "listen-address", l.lanIp);
    }
    TakeSingles(TakeLine, put, lans, ListenLine, router, v.listen);
    assert ListenLines(lans) == Mapped(lans, ListenLine) && Routers(lans) == Mapped(lans, router);
  }

  // The name server serves the blocks of all LANs and listens at their routers; its
  // cache is set, to nothing, exactly if there is a LAN.
  lemma DnsReadBack(v: View, lans: seq<ServiceLan>)
    ensures Take(TakeLine, v, DnsLines(lans))
      == v.(allowFrom := v.allowFrom + Prefixes(lans), listen := v.listen + Routers(lans),
            cacheSize := v.cacheSize + if lans == [] then [] else ["0"])
  {
    var cache := if lans == [] then [] else [DnsLine(["cache-size", "0"])];
    assert DnsLines(lans) == AllowLines(lans) + cache + ListenLines(lans);
    TakeConcat(TakeLine, v, AllowLines(lans) + cache, ListenLines(lans));
    TakeConcat(TakeLine, v, AllowLines(lans), cache);
    AllowTaken(v, lans);
    var v1 := v.(allowFrom := v.allowFrom + Prefixes(lans));
    var v2 := v1.(cacheSize := v.cacheSize + if lans == [] then [] else ["0"]);
    if lans == [] {
      assert v.cacheSize + [] == v.cacheSize;
    } else {
      TakeOne(TakeLine, v1, cache[0]);
      DnsTaken(v1, "cache-size", "0");
    }
    ListenTaken(v2, lans);
  }

  lemma SshReadBack(v: View, s: ServiceSection)
    requires s.sshEnabled ==> Decimal.MIN_INT <= s.sshPort <= Decimal.MAX_INT
    ensures Take(TakeLine, v, SshLines(s)) == v.(ports := v.ports + if s.sshEnabled then [s.sshPort] else [])
  {
    if s.sshEnabled {
      var line := SshLines(s)[0];
      TakeOne(TakeLine, v, line);
      NumberBack(line, 4, s.sshPort);
      assert At(line, 1) == "service" && At(line, 2) == "ssh";
    } else {
      assert v.ports + [] == v.ports;
    }
  }

  // ---- NAT ----

  lemma RuleLine(r: NatRule, i: nat)
    requires i < 3
    ensures At(NatLines(r)[i], 1) == "nat" && (StartsRule(NatLines(r)[i]) <==> i == 0)
  {
  }

  lemma OneRuleTaken(v: View, r: NatRule)
    ensures Take(TakeLine, v, NatLines(r)) == v.(rules := v.rules + [r])
  {
    var lines := NatLines(r);
    forall i | 0 <= i < |lines|
      ensures At(lines[i], 1) == "nat" && (StartsRule(lines[i]) <==> i == 0)
    {
      RuleLine(r, i);
    }
    TakePart(TakeLine, TakeRules, (l: seq<NatRule>) => v.(rules := l), v.rules, lines);
    TakeGroup(TakeRule, NO_RULE, StartsRule, TakeRules, v.rules, lines);
    RuleReadBack(r, NO_RULE);
  }

  lemma RulesTaken(v: View, rules: seq<NatRule>)
    ensures Take(TakeLine, v, AllNatLines(rules)) == v.(rules := v.rules + rules)
  {
    var put := (l: seq<NatRule>) => v.(rules := l);
    var same := (r: NatRule) => r;
    forall x, r
      ensures Adds(TakeLine, put, NatLines, same, x, r)
    {
      OneRuleTaken(v.(rules := x), r);
    }
    TakeItems(TakeLine, put, rules, NatLines, same, v.rules);
    assert NatLists(rules) == Mapped(rules, NatLines);
    assert Mapped(rules, same) == rules;
  }

  // ---- everything ----

  ghost predicate AllFit(s: ServiceSection) {
    && (forall l | l in s.lans :: Fits(l))
    && (s.sshEnabled ==> Decimal.MIN_INT <= s.sshPort <= Decimal.MAX_INT)
  }

  lemma InterfacesTaken(v: View, s: InterfacesSection)
    ensures Take(TakeLine, v, InterfaceLines(s))
      == v.(bridges := v.bridges + Bares(s.bridges), ethernets := v.ethernets + s.ethernets)
  {
    TakeConcat(TakeLine, v, Concat(BridgeLists(s.bridges)), EthernetLines(s.ethernets));
    BridgesTaken(v, s.bridges);
    EthernetsTaken(v.(bridges := v.bridges + Bares(s.bridges)), s.ethernets);
  }

  lemma ServicesTaken(v: View, s: ServiceSection)
    requires AllFit(s)
    ensures Take(TakeLine, v, ServiceLines(s))
      == v.(lans := v.lans + LanViews(s.lans), allowFrom := v.allowFrom + Prefixes(s.lans),
            cacheSize := v.cacheSize + (if s.lans == [] then [] else ["0"]), listen := v.listen + Routers(s.lans),
            ports := v.ports + if s.sshEnabled then [s.sshPort] else [])
  {
    TakeConcat(TakeLine, v, AllDhcpLines(s.lans) + DnsLines(s.lans), SshLines(s));
    TakeConcat(TakeLine, v, AllDhcpLines(s.lans), DnsLines(s.lans));
    LansTaken(v, s.lans);
    var v1 := v.(lans := v.lans + LanViews(s.lans));
    DnsReadBack(v1, s.lans);
    SshReadBack(Take(TakeLine, v1, DnsLines(s.lans)), s);
  }

  // Taking in all lines of the data one after the other gives back the data.
  lemma AllReadBack(d: Data)
    requires AllFit(d.services)
    ensures Take(TakeLine, NOTHING, AllLines(d)) == ViewOf(d)
  {
    var i, w, r := InterfaceLines(d.interfaces), ServiceLines(d.services), AllNatLines(d.rules);
    TakeThreeParts(TakeLine, NOTHING, i, w, r);
    InterfacesTaken(NOTHING, d.interfaces);
    var v1 := NOTHING.(bridges := [] + Bares(d.interfaces.bridges), ethernets := [] + d.interfaces.ethernets);
    ServicesTaken(v1, d.services);
    var v2 := Take(TakeLine, v1, w);
    RulesTaken(v2, d.rules);
    ViewParts(d, v1, v2);
  }

  lemma TakeThreeParts<V>(f: (V, Line) -> V, v: V, a: seq<Line>, b: seq<Line>, c: seq<Line>)
    ensures Take(f, v, a + b + c) == Take(f, Take(f, Take(f, v, a), b), c)
  {
    TakeConcat(f, v, a + b, c);
    TakeConcat(f, v, a, b);
  }

  lemma ViewParts(d: Data, v1: View, v2: View)
    requires v1 == NOTHING.(bridges := [] + Bares(d.interfaces.bridges), ethernets := [] + d.interfaces.ethernets)
    requires var s := d.services;
      v2 == v1.(lans := [] + LanViews(s.lans), allowFrom := [] + Prefixes(s.lans),
                cacheSize := [] + (if s.lans == [] then [] else ["0"]), listen := [] + Routers(s.lans),
                ports := [] + if s.sshEnabled then [s.sshPort] else [])
    ensures v2.(rules := [] + d.rules) == ViewOf(d)
  {
  }

  // ---- from the commands ----

  // A command as the device splits it.
  function TokenLine(command: string): Line {
    Templates.Bares(Tokenize(command).GetOr([]))
  }

  function CommandLines(commands: seq<string>): seq<Line> {
    seq(|commands|, i requires 0 <= i < |commands| => TokenLine(commands[i]))
  }

  ghost predicate SameTexts(a: Line, b: Line) {
    |a| == |b| && forall i | 0 <= i < |a| :: a[i].text == b[i].text
  }

  lemma SameAt(a: Line, b: Line, n: nat)
    requires SameTexts(a, b)
    ensures At(a, n) == At(b, n) && NumberAt(a, n) == NumberAt(b, n)
  {
  }

  lemma SameAts(a: Line, b: Line)
    requires SameTexts(a, b)
    ensures forall n: nat :: At(a, n) == At(b, n) && NumberAt(a, n) == NumberAt(b, n)
  {
  }

  lemma SameBridge(v: Bridge, a: Line, b: Line)
    requires SameTexts(a, b)
    ensures TakeBridge(v, a) == TakeBridge(v, b) && StartsBridge(a) == StartsBridge(b)
  {
    SameAts(a, b);
  }

  lemma SameBridges(list: seq<Bridge>, a: Line, b: Line)
    requires SameTexts(a, b)
    ensures TakeBridges(list, a) == TakeBridges(list, b)
  {
    SameBridge(NO_BRIDGE, a, b);
    forall v
      ensures TakeBridge(v, a) == TakeBridge(v, b)
    {
      SameBridge(v, a, b);
    }
    SameGroup(TakeBridge, NO_BRIDGE, StartsBridge, list, a, b);
  }

  lemma SameGroup<A>(f: (A, Line) -> A, zero: A, starts: Line -> bool, list: seq<A>, a: Line, b: Line)
    requires (forall v :: f(v, a) == f(v, b)) && starts(a) == starts(b)
    ensures Group(f, zero, starts, list, a) == Group(f, zero, starts, list, b)
  {
  }

  lemma SameLan(v: LanView, a: Line, b: Line)
    requires SameTexts(a, b)
    ensures TakeLan(v, a) == TakeLan(v, b) && StartsLan(a) == StartsLan(b)
  {
    SameAts(a, b);
  }

  lemma SameLans(list: seq<LanView>, a: Line, b: Line)
    requires SameTexts(a, b)
    ensures TakeLans(list, a) == TakeLans(list, b)
  {
    SameLan(NO_LAN, a, b);
    forall v
      ensures TakeLan(v, a) == TakeLan(v, b)
    {
      SameLan(v, a, b);
    }
    SameGroup(TakeLan, NO_LAN, StartsLan, list, a, b);
  }

  lemma SameRules(list: seq<NatRule>, a: Line, b: Line)
    requires SameTexts(a, b)
    ensures TakeRules(list, a) == TakeRules(list, b)
  {
    forall v
      ensures TakeRule(v, a) == TakeRule(v, b)
    {
      SameAts(a, b);
    }
    assert At(a, 5) == At(b, 5) by {
      SameAts(a, b);
    }
  }

  lemma SameTaken(v: View, a: Line, b: Line)
    requires SameTexts(a, b)
    ensures TakeLine(v, a) == TakeLine(v, b)
  {
    SameAt(a, b, 1);
    SameAt(a, b, 2);
    SameAt(a, b, 3);
    SameAt(a, b, 4);
    SameAt(a, b, 5);
    SameBridges(v.bridges, a, b);
    SameLans(v.lans, a, b);
    SameRules(v.rules, a, b);
    SameWords(v, a, b);
  }

  lemma SameWords(v: View, a: Line, b: Line)
    requires At(a, 1) == At(b, 1) && At(a, 2) == At(b, 2) && At(a, 3) == At(b, 3) && At(a, 4) == At(b, 4)
    requires At(a, 5) == At(b, 5) && NumberAt(a, 4) == NumberAt(b, 4)
    requires TakeBridges(v.bridges, a) == TakeBridges(v.bridges, b) && TakeLans(v.lans, a) == TakeLans(v.lans, b)
    requires TakeRules(v.rules, a) == TakeRules(v.rules, b)
    ensures TakeLine(v, a) == TakeLine(v, b)
  {
  }

  lemma {:induction false} AllSameTaken(v: View, a: seq<Line>, b: seq<Line>)
    requires |a| == |b| && forall i | 0 <= i < |a| :: SameTexts(a[i], b[i])
    ensures Take(TakeLine, v, a) == Take(TakeLine, v, b)
  {
    if a != [] {
      var n := |a| - 1;
      AllSameTaken(v, a[..n], b[..n]);
      SameTaken(Take(TakeLine, v, a[..n]), a[n], b[n]);
    }
  }

  // A device that takes in the printed commands, split into words, learns the data.
  lemma CommandsReadBack(d: Data)
    requires AllFit(d.services) && RoundTrip.AllGood(AllLines(d))
    ensures Take(TakeLine, NOTHING, CommandLines(Printed(AllLines(d)))) == ViewOf(d)
  {
    var lines := AllLines(d);
    forall i | 0 <= i < |lines|
      ensures SameTexts(CommandLines(Printed(lines))[i], lines[i])
    {
      assert RoundTrip.GoodLine(lines[i]);
      TokenizePrint(lines[i]);
    }
    AllReadBack(d);
    AllSameTaken(NOTHING, CommandLines(Printed(lines)), lines);
  }
}
