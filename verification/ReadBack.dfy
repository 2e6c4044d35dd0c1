// Reading printed lines back, the way a device takes them in line by line: no field is
// lost, invented or exchanged.
module ReadBack {
  import opened RenderData
  import opened Tokenizer
  import Decimal
  import opened Templates

  // Takes in lines one after the other.
  function Take<A>(f: (A, Line) -> A, a: A, lines: seq<Line>): A {
    if lines == [] then a else f(Take(f, a, lines[..|lines| - 1]), lines[|lines| - 1])
  }

  lemma {:induction false} TakeConcat<A>(f: (A, Line) -> A, a: A, x: seq<Line>, y: seq<Line>)
    ensures Take(f, a, x + y) == Take(f, Take(f, a, x), y)
  {
    if y == [] {
      assert x + y == x;
    } else {
      var n := |y| - 1;
      TakeConcat(f, a, x, y[..n]);
      assert (x + y)[..|x + y| - 1] == x + y[..n];
    }
  }

  lemma TakeOne<A>(f: (A, Line) -> A, a: A, line: Line)
    ensures Take(f, a, [line]) == f(a, line)
  {
    assert [line][..0] == [];
  }

  // Lists of lines, with the state after each.
  lemma {:induction false} TakeLists<A>(f: (A, Line) -> A, lists: seq<seq<Line>>, states: seq<A>)
    requires |states| == |lists| + 1
    requires forall i | 0 <= i < |lists| :: Take(f, states[i], lists[i]) == states[i + 1]
    ensures Take(f, states[0], Concat(lists)) == states[|lists|]
  {
    if lists != [] {
      var n := |lists| - 1;
      TakeLists(f, lists[..n], states[..n + 1]);
      TakeConcat(f, states[0], Concat(lists[..n]), lists[n]);
    }
  }

  // The n-th word of a line.
  function At(line: Line, n: nat): string {
    if n < |line| then line[n].text else ""
  }

  function NumberAt(line: Line, n: nat): int {
    Decimal.Atoi(At(line, n)).GetOr(0)
  }

  lemma NumberBack(line: Line, n: nat, value: Decimal.Int64)
    requires At(line, n) == Decimal.Itoa(value)
    ensures NumberAt(line, n) == value
  {
    Decimal.AtoiItoa(value);
  }

  // ---- DHCP ----

  datatype LanView = LanView(
    name: string, prefix: string, leaseSecs: int, router: string, nameServer: string,
    start: string, stop: string, subnetId: int)

  function TakeLan(v: LanView, line: Line): LanView {
    var v := v.(name := At(line, 4), prefix := At(line, 6));
    var key := At(line, 7);
    if key == "lease" then v.(leaseSecs := NumberAt(line, 8))
    else if key == "subnet-id" then v.(subnetId := NumberAt(line, 8))
    else if key == "option" then
      (if At(line, 8) == "default-router" then v.(router := At(line, 9)) else v.(nameServer := At(line, 9)))
    else if At(line, 9) == "start" then v.(start := At(line, 10))
    else v.(stop := At(line, 10))
  }

  const NO_LAN := LanView("", "", 0, "", "", "", "", 0)

  lemma LeaseTaken(l: ServiceLan, v: LanView)
    requires Decimal.MIN_INT <= l.leaseSecs <= Decimal.MAX_INT && Decimal.MIN_INT <= l.subnetId <= Decimal.MAX_INT
    ensures TakeLan(v, DhcpLines(l)[0]) == v.(name := l.name, prefix := l.prefix, leaseSecs := l.leaseSecs)
    ensures TakeLan(v, DhcpLines(l)[5]) == v.(name := l.name, prefix := l.prefix, subnetId := l.subnetId)
  {
    LanWords(l);
    LanNumberTaken(v, DhcpLines(l)[0], l.leaseSecs);
    LanNumberTaken(v, DhcpLines(l)[5], l.subnetId);
  }

  lemma LanWords(l: ServiceLan)
    ensures var line := DhcpLines(l)[0];
      && At(line, 4) == l.name && At(line, 6) == l.prefix
      && At(line, 7) == "lease" && At(line, 8) == Decimal.Itoa(l.leaseSecs)
    ensures var line := DhcpLines(l)[5];
      && At(line, 4) == l.name && At(line, 6) == l.prefix
      && At(line, 7) == "subnet-id" && At(line, 8) == Decimal.Itoa(l.subnetId)
  {
  }

  lemma LanNumberTaken(v: LanView, line: Line, n: Decimal.Int64)
    requires At(line, 8) == Decimal.Itoa(n)
    ensures At(line, 7) == "lease" ==>
      TakeLan(v, line) == v.(name := At(line, 4), prefix := At(line, 6), leaseSecs := n)
    ensures At(line, 7) == "subnet-id" ==>
      TakeLan(v, line) == v.(name := At(line, 4), prefix := At(line, 6), subnetId := n)
  {
    NumberBack(line, 8, n);
  }

  lemma OptionTaken(l: ServiceLan, v: LanView)
    ensures TakeLan(v, DhcpLines(l)[1]) == v.(name := l.name, prefix := l.prefix, router := l.lanIp)
    ensures TakeLan(v, DhcpLines(l)[2]) == v.(name := l.name, prefix := l.prefix, nameServer := l.lanIp)
  {
  }

  lemma RangeTaken(l: ServiceLan, v: LanView)
    ensures TakeLan(v, DhcpLines(l)[3]) == v.(name := l.name, prefix := l.prefix, start := l.rangeStart)
    ensures TakeLan(v, DhcpLines(l)[4]) == v.(name := l.name, prefix := l.prefix, stop := l.rangeStop)
  {
  }

  lemma TakeSix<A>(f: (A, Line) -> A, a: A, lines: seq<Line>)
    requires |lines| == 6
    ensures Take(f, a, lines) == f(f(f(f(f(f(a, lines[0]), lines[1]), lines[2]), lines[3]), lines[4]), lines[5])
  {
    TakeThree(f, a, lines[..3]);
    TakeThree(f, Take(f, a, lines[..3]), lines[3..]);
    TakeConcat(f, a, lines[..3], lines[3..]);
    assert lines == lines[..3] + lines[3..];
  }

  lemma TakeThree<A>(f: (A, Line) -> A, a: A, lines: seq<Line>)
    requires |lines| == 3
    ensures Take(f, a, lines) == f(f(f(a, lines[0]), lines[1]), lines[2])
  {
    assert lines[..2][..1] == [lines[0]];
    TakeOne(f, a, lines[0]);
    assert lines[..2][1] == lines[1];
  }

  // The lines of a LAN say everything about it.
  lemma LanReadBack(l: ServiceLan)
    requires Decimal.MIN_INT <= l.leaseSecs <= Decimal.MAX_INT && Decimal.MIN_INT <= l.subnetId <= Decimal.MAX_INT
    ensures Take(TakeLan, NO_LAN, DhcpLines(l))
      == LanView(l.name, l.prefix, l.leaseSecs, l.lanIp, l.lanIp, l.rangeStart, l.rangeStop, l.subnetId)
  {
    var lines := DhcpLines(l);
    TakeSix(TakeLan, NO_LAN, lines);
    var v1 := NO_LAN.(name := l.name, prefix := l.prefix, leaseSecs := l.leaseSecs);
    LeaseTaken(l, NO_LAN);
    OptionTaken(l, v1);
    var v2 := v1.(router := l.lanIp);
    OptionTaken(l, v2);
    var v3 := v2.(nameServer := l.lanIp);
    RangeTaken(l, v3);
    var v4 := v3.(start := l.rangeStart);
    RangeTaken(l, v4);
    LeaseTaken(l, v4.(stop := l.rangeStop));
  }

  // ---- NAT ----

  function TakeRule(r: NatRule, line: Line): NatRule {
    var id := NumberAt(line, 4);
    var r := if Decimal.MIN_INT <= id <= Decimal.MAX_INT then r.(ruleId := id) else r;
    var key := At(line, 5);
    if key == "outbound-interface" then r.(outbound := At(line, 7))
    else if key == "source" then r.(source := At(line, 7))
    else r.(translation := At(line, 7))
  }

  lemma RuleTaken(r: NatRule, v: NatRule)
    ensures TakeRule(v, NatLines(r)[0]) == v.(ruleId := r.ruleId, outbound := r.outbound)
    ensures TakeRule(v, NatLines(r)[1]) == v.(ruleId := r.ruleId, source := r.source)
    ensures TakeRule(v, NatLines(r)[2]) == v.(ruleId := r.ruleId, translation := r.translation)
  {
    NumberBack(NatLines(r)[0], 4, r.ruleId);
    NumberBack(NatLines(r)[1], 4, r.ruleId);
    NumberBack(NatLines(r)[2], 4, r.ruleId);
  }

  // The lines of a rule say everything about it.
  lemma RuleReadBack(r: NatRule, v: NatRule)
    ensures Take(TakeRule, v, NatLines(r)) == r
  {
    TakeThree(TakeRule, v, NatLines(r));
    RuleTaken(r, v);
    var v1 := v.(ruleId := r.ruleId, outbound := r.outbound);
    RuleTaken(r, v1);
    RuleTaken(r, v1.(source := r.source));
  }

  // ---- bridges ----

  // A bridge without the members of its VIFs, which are read back from the allowed
  // VLANs.
  function Bare(b: Bridge): Bridge {
    b.(vifs := seq(|b.vifs|, i requires 0 <= i < |b.vifs| => b.vifs[i].(members := [])))
  }

  function TakeBridge(b: Bridge, line: Line): Bridge {
    var b := b.(name := At(line, 3));
    var key := At(line, 4);
    if key == "address" then b.(address := At(line, 5))
    else if key == "description" then b.(description := At(line, 5))
    else if key == "member" then
      (if At(line, 7) == "allowed-vlan" then b else b.(members := b.members + [At(line, 6)]))
    else if At(line, 6) == "address" then
      var id := NumberAt(line, 5);
      b.(vifs := b.vifs + [Vif(if Decimal.MIN_INT <= id <= Decimal.MAX_INT then id else 0, At(line, 7), "", [])])
    else if b.vifs == [] then b
    else
      var n := |b.vifs| - 1;
      b.(vifs := b.vifs[..n] + [b.vifs[n].(description := At(line, 7))])
  }

  lemma HeadTaken(b: Bridge, v: Bridge)
    ensures Take(TakeBridge, v, HeadLines(b)) == v.(name := b.name, address := b.address, description := b.description)
  {
    TakeConcat(TakeBridge, v, [HeadLines(b)[0]], [HeadLines(b)[1]]);
    assert HeadLines(b) == [HeadLines(b)[0]] + [HeadLines(b)[1]];
    AddressTaken(b, v);
    var v1 := v.(name := b.name, address := b.address);
    TakeOne(TakeBridge, v, HeadLines(b)[0]);
    TakeOne(TakeBridge, v1, HeadLines(b)[1]);
    AddressTaken(b, v1);
  }

  lemma AddressTaken(b: Bridge, v: Bridge)
    ensures TakeBridge(v, HeadLines(b)[0]) == v.(name := b.name, address := b.address)
    ensures TakeBridge(v, HeadLines(b)[1]) == v.(name := b.name, description := b.description)
  {
    assert HeadLines(b)[1][5] == Quoted(b.description);
  }

  lemma MemberLineTaken(b: Bridge, member: string, id: int, v: Bridge)
    requires v.name == b.name
    ensures TakeBridge(v, AllowedLine(b, member, id)) == v
    ensures TakeBridge(v, NativeLine(b, member)) == v.(members := v.members + [member])
    ensures TakeBridge(v, Bares(MemberHead(b, member))) == v.(members := v.members + [member])
  {
  }

  lemma {:induction false} AllowedTaken(b: Bridge, member: string, ids: seq<int>, v: Bridge)
    requires v.name == b.name
    ensures Take(TakeBridge, v, AllowedLines(b, member, ids)) == v
  {
    if ids != [] {
      var n := |ids| - 1;
      AllowedTaken(b, member, ids[..n], v);
      MemberLineTaken(b, member, ids[n], v);
      assert AllowedLines(b, member, ids)[..n] == AllowedLines(b, member, ids[..n]);
    }
  }

  lemma MemberTaken(b: Bridge, member: string, v: Bridge)
    requires v.name == b.name
    ensures Take(TakeBridge, v, MemberLines(b, member)) == v.(members := v.members + [member])
  {
    var ids := AllowedVlans(b.vifs, member);
    MemberLineTaken(b, member, 0, v);
    if ids == [] {
      TakeOne(TakeBridge, v, Bares(MemberHead(b, member)));
    } else {
      AllowedTaken(b, member, ids, v);
      TakeConcat(TakeBridge, v, AllowedLines(b, member, ids), [NativeLine(b, member)]);
      TakeOne(TakeBridge, v, NativeLine(b, member));
    }
  }

  lemma MembersTaken(b: Bridge, v: Bridge)
    requires v.name == b.name && v.members == []
    ensures Take(TakeBridge, v, Concat(MemberLists(b))) == v.(members := b.members)
  {
    var n := |b.members|;
    var states := seq(n + 1, i requires 0 <= i <= n => v.(members := b.members[..i]));
    forall i | 0 <= i < n
      ensures Take(TakeBridge, states[i], MemberLists(b)[i]) == states[i + 1]
    {
      MemberTaken(b, b.members[i], states[i]);
      assert b.members[..i + 1] == b.members[..i] + [b.members[i]];
    }
    TakeLists(TakeBridge, MemberLists(b), states);
    assert states[0] == v && b.members[..n] == b.members;
  }

  lemma VifLineTaken(b: Bridge, vif: Vif, v: Bridge)
    requires v.name == b.name
    ensures TakeBridge(v, VifLines(b, vif)[0]) == v.(vifs := v.vifs + [Vif(vif.id, vif.address, "", [])])
    ensures v.vifs != [] ==>
      var n := |v.vifs| - 1;
      TakeBridge(v, VifLines(b, vif)[1]) == v.(vifs := v.vifs[..n] + [v.vifs[n].(description := vif.description)])
  {
    NumberBack(VifLines(b, vif)[0], 5, vif.id);
    VifWords(b, vif);
    VifAddressTaken(v, VifLines(b, vif)[0], vif.id);
    VifDescriptionTaken(v, VifLines(b, vif)[1]);
  }

  lemma VifWords(b: Bridge, vif: Vif)
    ensures var line := VifLines(b, vif)[0];
      && At(line, 3) == b.name && At(line, 4) == "vif" && At(line, 6) == "address" && At(line, 7) == vif.address
    ensures var line := VifLines(b, vif)[1];
      && At(line, 3) == b.name && At(line, 4) == "vif" && At(line, 6) == "description"
      && At(line, 7) == vif.description
  {
    assert VifLines(b, vif)[1][7] == Quoted(vif.description);
  }

  lemma VifAddressTaken(v: Bridge, line: Line, id: Decimal.Int64)
    requires At(line, 3) == v.name && At(line, 4) == "vif" && At(line, 6) == "address" && NumberAt(line, 5) == id
    ensures TakeBridge(v, line) == v.(vifs := v.vifs + [Vif(id, At(line, 7), "", [])])
  {
  }

  lemma VifDescriptionTaken(v: Bridge, line: Line)
    requires At(line, 3) == v.name && At(line, 4) == "vif" && At(line, 6) == "description"
    ensures v.vifs != [] ==>
      var n := |v.vifs| - 1;
      TakeBridge(v, line) == v.(vifs := v.vifs[..n] + [v.vifs[n].(description := At(line, 7))])
  {
  }

  lemma VifTaken(b: Bridge, vif: Vif, v: Bridge)
    requires v.name == b.name
    ensures Take(TakeBridge, v, VifLines(b, vif)) == v.(vifs := v.vifs + [vif.(members := [])])
  {
    var lines := VifLines(b, vif);
    var half := Vif(vif.id, vif.address, "", []);
    var v1 := v.(vifs := v.vifs + [half]);
    assert lines == [lines[0]] + [lines[1]];
    VifLineTaken(b, vif, v);
    VifLineTaken(b, vif, v1);
    TakeConcat(TakeBridge, v, [lines[0]], [lines[1]]);
    TakeOne(TakeBridge, v, lines[0]);
    TakeOne(TakeBridge, v1, lines[1]);
    assert v1.vifs[..|v.vifs|] == v.vifs;
  }

  function VifStates(b: Bridge, v: Bridge): seq<Bridge> {
    seq(|b.vifs| + 1, i requires 0 <= i <= |b.vifs| => v.(vifs := Bare(b).vifs[..i]))
  }

  lemma VifStep(b: Bridge, v: Bridge, i: nat)
    requires v.name == b.name && i < |b.vifs|
    ensures Take(TakeBridge, VifStates(b, v)[i], VifLists(b)[i]) == VifStates(b, v)[i + 1]
  {
    VifTaken(b, b.vifs[i], VifStates(b, v)[i]);
    VifNext(b, v, i);
    assert VifLists(b)[i] == VifLines(b, b.vifs[i]);
  }

  lemma VifNext(b: Bridge, v: Bridge, i: nat)
    requires i < |b.vifs|
    ensures var before := VifStates(b, v)[i];
      VifStates(b, v)[i + 1] == before.(vifs := before.vifs + [b.vifs[i].(members := [])])
  {
    var vifs := Bare(b).vifs;
    assert vifs[..i + 1] == vifs[..i] + [b.vifs[i].(members := [])];
  }

  lemma VifsTaken(b: Bridge, v: Bridge)
    requires v.name == b.name && v.vifs == []
    ensures Take(TakeBridge, v, Concat(VifLists(b))) == v.(vifs := Bare(b).vifs)
  {
    forall i | 0 <= i < |b.vifs|
      ensures Take(TakeBridge, VifStates(b, v)[i], VifLists(b)[i]) == VifStates(b, v)[i + 1]
    {
      VifStep(b, v, i);
    }
    TakeLists(TakeBridge, VifLists(b), VifStates(b, v));
    assert VifStates(b, v)[0] == v && Bare(b).vifs[..|b.vifs|] == Bare(b).vifs;
  }

  const NO_BRIDGE := Bridge("", "", "", [], [])

  // The lines of a bridge say everything about it but who is a member of which VIF.
  lemma BridgeReadBack(b: Bridge)
    ensures Take(TakeBridge, NO_BRIDGE, BridgeLines(b)) == Bare(b)
  {
    var v1 := NO_BRIDGE.(name := b.name, address := b.address, description := b.description);
    var v2 := v1.(members := b.members);
    HeadTaken(b, NO_BRIDGE);
    MembersTaken(b, v1);
    VifsTaken(b, v2);
    TakeConcat(TakeBridge, NO_BRIDGE, HeadLines(b) + Concat(MemberLists(b)), Concat(VifLists(b)));
    TakeConcat(TakeBridge, NO_BRIDGE, HeadLines(b), Concat(MemberLists(b)));
  }
}
