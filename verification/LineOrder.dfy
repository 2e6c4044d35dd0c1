// The order of the printed lines: section by section, and within a bridge first its own
// lines, then its members and then its VIFs.
module LineOrder {
  import opened RenderData
  import opened Tokenizer
  import opened Templates
  import opened ReadBack
  import opened ReadAll

  // Bridges, ethernets, DHCP, DNS, SSH, NAT.
  function Section(line: Line): nat {
    if At(line, 2) == "bridge" then 0
    else if At(line, 2) == "ethernet" then 1
    else if At(line, 2) == "dhcp-server" then 2
    else if At(line, 2) == "dns" then 3
    else if At(line, 2) == "ssh" then 4
    else 5
  }

  function Part(line: Line): nat {
    if At(line, 4) == "member" then 1 else if At(line, 4) == "vif" then 2 else 0
  }

  ghost predicate Ascends(rank: Line -> nat, lines: seq<Line>) {
    forall i, j | 0 <= i < j < |lines| :: rank(lines[i]) <= rank(lines[j])
  }

  ghost predicate Within(rank: Line -> nat, lines: seq<Line>, low: nat, high: nat) {
    forall i | 0 <= i < |lines| :: low <= rank(lines[i]) <= high
  }

  // Lines up to some rank, and then lines of that rank.
  lemma Behind(rank: Line -> nat, a: seq<Line>, b: seq<Line>, k: nat)
    requires Ascends(rank, a) && Within(rank, a, 0, k) && Within(rank, b, k, k)
    ensures Ascends(rank, a + b) && Within(rank, a + b, 0, k)
  {
  }

  lemma Wider(rank: Line -> nat, a: seq<Line>, k: nat, high: nat)
    requires Within(rank, a, 0, k) && k <= high
    ensures Within(rank, a, 0, high)
  {
  }

  lemma Same(rank: Line -> nat, lines: seq<Line>, k: nat)
    requires Within(rank, lines, k, k)
    ensures Ascends(rank, lines)
  {
  }

  lemma Joined(rank: Line -> nat, lists: seq<seq<Line>>, k: nat)
    requires forall i | 0 <= i < |lists| :: Within(rank, lists[i], k, k)
    ensures Within(rank, Concat(lists), k, k)
  {
    forall i | 0 <= i < |Concat(lists)|
      ensures rank(Concat(lists)[i]) == k
    {
      var line := Concat(lists)[i];
      assert line in Concat(lists);
      var at := InLists(lists, line);
      var j :| 0 <= j < |lists[at]| && lists[at][j] == line;
    }
  }

  // ---- sections ----

  lemma BridgeSection(bridges: seq<Bridge>)
    ensures Within(Section, Concat(BridgeLists(bridges)), 0, 0)
  {
    forall i | 0 <= i < |bridges|
      ensures Within(Section, BridgeLines(bridges[i]), 0, 0)
    {
      forall j | 0 <= j < |BridgeLines(bridges[i])|
        ensures Section(BridgeLines(bridges[i])[j]) == 0
      {
        LinesOfBridge(bridges[i], j);
      }
    }
    Joined(Section, BridgeLists(bridges), 0);
  }

  lemma DhcpSection(lans: seq<ServiceLan>)
    ensures Within(Section, AllDhcpLines(lans), 2, 2)
  {
    forall i | 0 <= i < |lans|
      ensures Within(Section, DhcpLines(lans[i]), 2, 2)
    {
    }
    Joined(Section, DhcpLists(lans), 2);
  }

  lemma NatSection(rules: seq<NatRule>)
    ensures Within(Section, AllNatLines(rules), 5, 5)
  {
    forall i | 0 <= i < |rules|
      ensures Within(Section, NatLines(rules[i]), 5, 5)
    {
    }
    Joined(Section, NatLists(rules), 5);
  }

  lemma EthernetSection(ethernets: seq<Ethernet>)
    ensures Within(Section, EthernetLines(ethernets), 1, 1)
  {
  }

  lemma DnsSection(lans: seq<ServiceLan>)
    ensures Within(Section, DnsLines(lans), 3, 3)
  {
  }

  lemma SshSection(s: ServiceSection)
    ensures Within(Section, SshLines(s), 4, 4)
  {
  }

  lemma InterfacesOrdered(s: InterfacesSection)
    ensures Ascends(Section, InterfaceLines(s)) && Within(Section, InterfaceLines(s), 0, 1)
  {
    var bridges := Concat(BridgeLists(s.bridges));
    BridgeSection(s.bridges);
    Same(Section, bridges, 0);
    Wider(Section, bridges, 0, 1);
    EthernetSection(s.ethernets);
    Behind(Section, bridges, EthernetLines(s.ethernets), 1);
  }

  // A section and its service lines.
  lemma ServicesOrdered(front: seq<Line>, s: ServiceSection)
    requires Ascends(Section, front) && Within(Section, front, 0, 1)
    ensures Ascends(Section, front + ServiceLines(s)) && Within(Section, front + ServiceLines(s), 0, 4)
  {
    var dhcp, dns, ssh := AllDhcpLines(s.lans), DnsLines(s.lans), SshLines(s);
    DhcpSection(s.lans);
    DnsSection(s.lans);
    SshSection(s);
    ThreeBehind(Section, front, dhcp, dns, ssh, 2);
    assert front + ServiceLines(s) == front + dhcp + dns + ssh;
  }

  lemma ThreeBehind(rank: Line -> nat, front: seq<Line>, a: seq<Line>, b: seq<Line>, c: seq<Line>, k: nat)
    requires k >= 1 && Ascends(rank, front) && Within(rank, front, 0, k - 1)
    requires Within(rank, a, k, k) && Within(rank, b, k + 1, k + 1) && Within(rank, c, k + 2, k + 2)
    ensures Ascends(rank, front + a + b + c) && Within(rank, front + a + b + c, 0, k + 2)
  {
    Wider(rank, front, k - 1, k);
    Behind(rank, front, a, k);
    Wider(rank, front + a, k, k + 1);
    Behind(rank, front + a, b, k + 1);
    Wider(rank, front + a + b, k + 1, k + 2);
    Behind(rank, front + a + b, c, k + 2);
  }

  // Whatever the data, the sections are in this order.
  lemma SectionsInOrder(d: Data)
    ensures Ascends(Section, AllLines(d))
  {
    var front := InterfaceLines(d.interfaces) + ServiceLines(d.services);
    InterfacesOrdered(d.interfaces);
    ServicesOrdered(InterfaceLines(d.interfaces), d.services);
    NatSection(d.rules);
    Wider(Section, front, 4, 5);
    Behind(Section, front, AllNatLines(d.rules), 5);
  }

  // ---- parts of a bridge ----

  lemma HeadPart(b: Bridge)
    ensures Within(Part, HeadLines(b), 0, 0)
  {
  }

  lemma MemberPart(b: Bridge, member: string)
    ensures Within(Part, MemberLines(b, member), 1, 1)
  {
  }

  lemma VifPart(b: Bridge, vif: Vif)
    ensures Within(Part, VifLines(b, vif), 2, 2)
  {
  }

  // A bridge, then its members, then its VIFs.
  lemma PartsInOrder(b: Bridge)
    ensures Ascends(Part, BridgeLines(b))
  {
    var head, members := HeadLines(b), Concat(MemberLists(b));
    HeadPart(b);
    forall i | 0 <= i < |b.members|
      ensures Within(Part, MemberLists(b)[i], 1, 1)
    {
      MemberPart(b, b.members[i]);
    }
    Joined(Part, MemberLists(b), 1);
    forall i | 0 <= i < |b.vifs|
      ensures Within(Part, VifLists(b)[i], 2, 2)
    {
      VifPart(b, b.vifs[i]);
    }
    Joined(Part, VifLists(b), 2);
    Wider(Part, head, 0, 1);
    Behind(Part, head, members, 1);
    Wider(Part, head + members, 1, 2);
    Behind(Part, head + members, Concat(VifLists(b)), 2);
  }
}
