// The VLAN membership that a rendered bridge tells the device.
module VlanMembership {
  import opened RenderData
  import opened Tokenizer
  import Text
  import Decimal
  import Sorting
  import I = Interfaces
  import R = ReadBack
  import opened Templates

  type Pair = (string, int)

  // The (member, allowed-vlan) pair that a printed line states, read back from its
  // words.
  function PairOf(line: Line): seq<Pair> {
    if |line| != 9 || line[5].text != "interface" || line[7].text != "allowed-vlan" then []
    else
      match Decimal.Atoi(line[8].text)
      case Some(id) => [(line[6].text, id)]
      case None => []
  }

  function Gather(lines: seq<Line>, f: Line -> seq<Pair>): seq<Pair> {
    if lines == [] then [] else Gather(lines[..|lines| - 1], f) + f(lines[|lines| - 1])
  }

  function PairsOf(lines: seq<Line>): seq<Pair> {
    Gather(lines, PairOf)
  }

  // ---- what is printed for one bridge ----

  function MemberPairs(b: Bridge, member: string): seq<Pair> {
    var ids := AllowedVlans(b.vifs, member);
    seq(|ids|, i requires 0 <= i < |ids| => (member, ids[i]))
  }

  function PairLists(b: Bridge): seq<seq<Pair>> {
    seq(|b.members|, i requires 0 <= i < |b.members| => MemberPairs(b, b.members[i]))
  }

  function Pairs(b: Bridge): seq<Pair> {
    Concat(PairLists(b))
  }

  lemma {:induction false} GatherConcat(a: seq<Line>, b: seq<Line>, f: Line -> seq<Pair>)
    ensures Gather(a + b, f) == Gather(a, f) + Gather(b, f)
  {
    if b == [] {
      assert a + b == a;
    } else {
      var n := |b| - 1;
      GatherConcat(a, b[..n], f);
      assert (a + b)[..|a + b| - 1] == a + b[..n];
    }
  }

  lemma {:induction false} GatherNone(lines: seq<Line>, f: Line -> seq<Pair>)
    requires forall i | 0 <= i < |lines| :: f(lines[i]) == []
    ensures Gather(lines, f) == []
  {
    if lines != [] {
      GatherNone(lines[..|lines| - 1], f);
    }
  }

  lemma {:induction false} GatherOnes(lines: seq<Line>, pairs: seq<Pair>, f: Line -> seq<Pair>)
    requires |lines| == |pairs| && forall i | 0 <= i < |lines| :: f(lines[i]) == [pairs[i]]
    ensures Gather(lines, f) == pairs
  {
    if lines != [] {
      var n := |lines| - 1;
      GatherOnes(lines[..n], pairs[..n], f);
      assert pairs == pairs[..n] + [pairs[n]];
    }
  }

  lemma {:induction false} GatherLists(lists: seq<seq<Line>>, parts: seq<seq<Pair>>, f: Line -> seq<Pair>)
    requires |lists| == |parts| && forall i | 0 <= i < |lists| :: Gather(lists[i], f) == parts[i]
    ensures Gather(Concat(lists), f) == Concat(parts)
  {
    if lists != [] {
      var n := |lists| - 1;
      GatherLists(lists[..n], parts[..n], f);
      GatherConcat(Concat(lists[..n]), lists[n], f);
    }
  }

  lemma {:induction false} ConcatEmpty(parts: seq<seq<Pair>>)
    requires forall i | 0 <= i < |parts| :: parts[i] == []
    ensures Concat(parts) == []
  {
    if parts != [] {
      ConcatEmpty(parts[..|parts| - 1]);
    }
  }

  lemma AllowedPair(b: Bridge, member: string, id: Decimal.Int64)
    ensures PairOf(AllowedLine(b, member, id)) == [(member, id as int)]
  {
    Decimal.AtoiItoa(id);
  }

  lemma NotAllowedLines(b: Bridge, member: string)
    ensures PairOf(NativeLine(b, member)) == [] && PairOf(Bares(MemberHead(b, member))) == []
  {
    assert NativeLine(b, member)[7] == Bare("native-vlan");
  }

  lemma ShortLines(lines: seq<Line>)
    requires forall i | 0 <= i < |lines| :: |lines[i]| < 9
    ensures PairsOf(lines) == []
  {
    GatherNone(lines, PairOf);
  }

  lemma AllowedPairs(b: Bridge, member: string)
    ensures PairsOf(AllowedLines(b, member, AllowedVlans(b.vifs, member))) == MemberPairs(b, member)
  {
    var ids := AllowedVlans(b.vifs, member);
    forall i | 0 <= i < |ids|
      ensures PairOf(AllowedLines(b, member, ids)[i]) == [MemberPairs(b, member)[i]]
    {
      assert ids[i] in ids;
      AllowedPair(b, member, ids[i]);
    }
    GatherOnes(AllowedLines(b, member, ids), MemberPairs(b, member), PairOf);
  }

  lemma MemberLinePairs(b: Bridge, member: string)
    ensures PairsOf(MemberLines(b, member)) == MemberPairs(b, member)
  {
    var ids := AllowedVlans(b.vifs, member);
    NotAllowedLines(b, member);
    if ids == [] {
      GatherNone(MemberLines(b, member), PairOf);
    } else {
      AllowedPairs(b, member);
      GatherConcat(AllowedLines(b, member, ids), [NativeLine(b, member)], PairOf);
      GatherNone([NativeLine(b, member)], PairOf);
    }
  }

  lemma VifPairs(b: Bridge)
    ensures PairsOf(Concat(VifLists(b))) == []
  {
    var none := seq(|b.vifs|, i => []);
    forall i | 0 <= i < |b.vifs|
      ensures PairsOf(VifLists(b)[i]) == none[i]
    {
      ShortLines(VifLines(b, b.vifs[i]));
    }
    GatherLists(VifLists(b), none, PairOf);
    ConcatEmpty(none);
  }

  lemma MembersPairs(b: Bridge)
    ensures PairsOf(Concat(MemberLists(b))) == Pairs(b)
  {
    forall i | 0 <= i < |b.members|
      ensures PairsOf(MemberLists(b)[i]) == PairLists(b)[i]
    {
      MemberLinePairs(b, b.members[i]);
    }
    GatherLists(MemberLists(b), PairLists(b), PairOf);
  }

  // The pairs that a rendered bridge states are those of its members, in order.
  lemma PrintedPairs(b: Bridge)
    ensures PairsOf(BridgeLines(b)) == Pairs(b)
  {
    MembersPairs(b);
    HeadPairs(b);
    VifPairs(b);
    GatherThree(HeadLines(b), Concat(MemberLists(b)), Concat(VifLists(b)), PairOf);
    assert [] + Pairs(b) + [] == Pairs(b);
  }

  lemma HeadPairs(b: Bridge)
    ensures PairsOf(HeadLines(b)) == []
  {
    ShortLines(HeadLines(b));
  }

  lemma GatherThree(a: seq<Line>, b: seq<Line>, c: seq<Line>, f: Line -> seq<Pair>)
    ensures Gather(a + b + c, f) == Gather(a, f) + Gather(b, f) + Gather(c, f)
  {
    GatherConcat(a + b, c, f);
    GatherConcat(a, b, f);
  }

  // ---- what the pairs are ----

  ghost predicate Carried(vifs: seq<Vif>, p: Pair) {
    exists v :: v in vifs && p.0 in v.members && v.id == p.1
  }

  lemma MemberPairsExact(b: Bridge, member: string, p: Pair)
    ensures p in MemberPairs(b, member) <==> p.0 == member && Carried(b.vifs, p)
  {
    var ids := AllowedVlans(b.vifs, member);
    if p.0 == member && Carried(b.vifs, p) {
      assert p.1 in ids;
      var i :| 0 <= i < |ids| && ids[i] == p.1;
      assert MemberPairs(b, member)[i] == p;
    }
    if p in MemberPairs(b, member) {
      var i :| 0 <= i < |ids| && p == (member, ids[i]);
      assert ids[i] in ids;
    }
  }

  lemma {:induction false} PairsExact(b: Bridge, n: nat, p: Pair)
    requires n <= |b.members|
    ensures p in Concat(PairLists(b)[..n]) <==> p.0 in b.members[..n] && Carried(b.vifs, p)
  {
    if n > 0 {
      var lists := PairLists(b);
      PairsExact(b, n - 1, p);
      MemberPairsExact(b, b.members[n - 1], p);
      assert lists[..n][..n - 1] == lists[..n - 1];
      assert b.members[..n] == b.members[..n - 1] + [b.members[n - 1]];
    }
  }

  // By member, then by id; in particular no pair is repeated.
  predicate PairLess(p: Pair, q: Pair) {
    Text.Less(p.0, q.0) || (p.0 == q.0 && p.1 < q.1)
  }

  ghost predicate Ordered(pairs: seq<Pair>) {
    forall i, j | 0 <= i < j < |pairs| :: PairLess(pairs[i], pairs[j])
  }

  lemma MemberPairsOrdered(b: Bridge, member: string)
    ensures Ordered(MemberPairs(b, member))
  {
  }

  lemma OrderedConcat(a: seq<Pair>, b: seq<Pair>)
    requires Ordered(a) && Ordered(b) && forall p, q | p in a && q in b :: PairLess(p, q)
    ensures Ordered(a + b)
  {
  }

  lemma {:induction false} PairsOrdered(b: Bridge, n: nat)
    requires n <= |b.members| && Sorting.Ascending(b.members)
    ensures Ordered(Concat(PairLists(b)[..n]))
  {
    if n > 0 {
      var lists := PairLists(b);
      PairsOrdered(b, n - 1);
      MemberPairsOrdered(b, b.members[n - 1]);
      assert lists[..n][..n - 1] == lists[..n - 1];
      forall p, q | p in Concat(lists[..n - 1]) && q in lists[n - 1]
        ensures PairLess(p, q)
      {
        PairsExact(b, n - 1, p);
        MemberPairsExact(b, b.members[n - 1], q);
        var k :| 0 <= k < n - 1 && b.members[k] == p.0;
      }
      OrderedConcat(Concat(lists[..n - 1]), lists[n - 1]);
    }
  }

  // What normalization guarantees of a bridge: all lists of ports ascend, and the
  // ports of VIFs are members.
  ghost predicate Orderly(b: Bridge) {
    && Sorting.Ascending(b.members)
    && forall v | v in b.vifs :: Sorting.Ascending(v.members) && forall m | m in v.members :: m in b.members
  }

  lemma OrderlyPairs(b: Bridge)
    requires Orderly(b)
    ensures Ordered(PairsOf(BridgeLines(b)))
    ensures forall p :: p in PairsOf(BridgeLines(b)) <==> Carried(b.vifs, p)
  {
    PrintedPairs(b);
    PairsOrdered(b, |b.members|);
    assert b.members[..|b.members|] == b.members && PairLists(b)[..|b.members|] == PairLists(b);
    forall p
      ensures p in Pairs(b) <==> Carried(b.vifs, p)
    {
      PairsExact(b, |b.members|, p);
    }
  }

  // No VLAN membership is lost or invented: the pairs that the rendered lines of a
  // bridge state are exactly the pairs of a VIF's id and one of its ports, each once,
  // ordered by member and then by id.
  lemma MembershipExact(bridges: seq<Bridge>, entries: RawInterfaces, ports: PortMap, k: nat)
    requires I.BridgesAre(bridges, entries, ports) && k < |bridges|
    ensures var pairs := PairsOf(BridgeLines(bridges[k]));
      && Ordered(pairs)
      && forall p :: p in pairs <==> Carried(bridges[k].vifs, p)
  {
    BridgeOrderly(bridges, entries, ports, k);
    OrderlyPairs(bridges[k]);
  }

  lemma BridgeOrderly(bridges: seq<Bridge>, entries: RawInterfaces, ports: PortMap, k: nat)
    requires I.BridgesAre(bridges, entries, ports) && k < |bridges|
    ensures Orderly(bridges[k])
  {
    MembersListed(bridges, entries, ports, k);
    forall v | v in bridges[k].vifs
      ensures Sorting.Ascending(v.members)
    {
      VifAscends(bridges, entries, ports, k, v);
    }
  }

  lemma VifAscends(bridges: seq<Bridge>, entries: RawInterfaces, ports: PortMap, k: nat, v: Vif)
    requires I.BridgesAre(bridges, entries, ports) && k < |bridges| && v in bridges[k].vifs
    ensures Sorting.Ascending(v.members)
  {
    I.BridgesNumbered(bridges, entries, ports);
    I.VifsConserved(bridges, entries, ports);
    Sorting.SameElements(bridges[k].vifs, I.Vifs(entries, |entries|, ports));
    VifsAscend(entries, ports, v);
  }

  lemma VifsAscend(entries: RawInterfaces, ports: PortMap, v: Vif)
    requires v in I.Vifs(entries, |entries|, ports)
    ensures Sorting.Ascending(v.members)
  {
    var at := I.Indices(entries, |entries|, I.IsVif);
    I.IndicesExact(entries, |entries|, I.IsVif);
    var j :| 0 <= j < |at| && I.Vifs(entries, |entries|, ports)[j] == v;
    assert at[j] in at;
    Sorting.ListingShape(I.PortSet(entries[at[j]], ports));
  }

  lemma MembersListed(bridges: seq<Bridge>, entries: RawInterfaces, ports: PortMap, k: nat)
    requires I.BridgesAre(bridges, entries, ports) && k < |bridges|
    ensures Sorting.Ascending(bridges[k].members)
    ensures forall v, m | v in bridges[k].vifs && m in v.members :: m in bridges[k].members
  {
    var n := |entries|;
    I.BridgesNumbered(bridges, entries, ports);
    I.VifsConserved(bridges, entries, ports);
    I.MembersAscend(entries, ports);
    if k != |I.Uplinks(entries, n, ports)| {
      LaidAscends(bridges, I.Uplinks(entries, n, ports), I.Downlinks(entries, n, ports), I.Vifs(entries, n, ports), k);
    }
  }

  lemma LaidAscends(bridges: seq<Bridge>, ups: seq<Bridge>, downs: seq<Bridge>, vifs: seq<Vif>, k: nat)
    requires I.Laid(bridges, ups, downs, vifs) && I.AscendingMembers(ups) && I.AscendingMembers(downs)
    requires k < |bridges| && k != |ups|
    ensures Sorting.Ascending(bridges[k].members)
  {
    I.BridgeAt(bridges, ups, downs, vifs, k);
  }

  // ---- the whole bridge read back ----

  // The members that some pairs give to a VIF id.
  function MembersOf(pairs: seq<Pair>, id: int): seq<string> {
    if pairs == [] then []
    else
      var n := |pairs| - 1;
      MembersOf(pairs[..n], id) + if pairs[n].1 == id then [pairs[n].0] else []
  }

  lemma {:induction false} MembersOfExact(pairs: seq<Pair>, id: int)
    requires Ordered(pairs)
    ensures Sorting.Ascending(MembersOf(pairs, id))
    ensures forall m :: m in MembersOf(pairs, id) <==> (m, id) in pairs
  {
    if pairs != [] {
      var n := |pairs| - 1;
      MembersOfExact(pairs[..n], id);
      assert pairs == pairs[..n] + [pairs[n]];
      forall m | m in MembersOf(pairs[..n], id) && pairs[n].1 == id
        ensures Text.Less(m, pairs[n].0)
      {
        assert PairLess((m, id), pairs[n]);
      }
    }
  }

  // The bridge that some lines state.
  function ReadBridge(lines: seq<Line>): Bridge {
    WithMembers(R.Take(R.TakeBridge, R.NO_BRIDGE, lines), PairsOf(lines))
  }

  function WithMembers(b: Bridge, pairs: seq<Pair>): Bridge {
    b.(vifs := seq(|b.vifs|, i requires 0 <= i < |b.vifs| => b.vifs[i].(members := MembersOf(pairs, b.vifs[i].id))))
  }

  // VIFs of one id have the same members.
  ghost predicate OneMemberList(vifs: seq<Vif>) {
    forall v, w | v in vifs && w in vifs && v.id == w.id :: v.members == w.members
  }

  lemma MembersBack(vifs: seq<Vif>, pairs: seq<Pair>, v: Vif)
    requires Ordered(pairs) && forall p :: p in pairs <==> Carried(vifs, p)
    requires v in vifs && Sorting.Ascending(v.members) && OneMemberList(vifs)
    ensures MembersOf(pairs, v.id) == v.members
  {
    MembersOfExact(pairs, v.id);
    forall m
      ensures m in MembersOf(pairs, v.id) <==> m in v.members
    {
      assert (m, v.id as int) in pairs <==> Carried(vifs, (m, v.id as int));
    }
    Sorting.AscendingUnique(MembersOf(pairs, v.id), v.members);
  }

  lemma AllMembersBack(b: Bridge, pairs: seq<Pair>)
    requires Orderly(b) && Ordered(pairs) && forall p :: p in pairs <==> Carried(b.vifs, p)
    ensures WithMembers(R.Bare(b), pairs) == b <==> OneMemberList(b.vifs)
  {
    var r := WithMembers(R.Bare(b), pairs);
    if OneMemberList(b.vifs) {
      forall i | 0 <= i < |b.vifs|
        ensures r.vifs[i] == b.vifs[i]
      {
        MembersBack(b.vifs, pairs, b.vifs[i]);
      }
    }
    assert forall i | 0 <= i < |b.vifs| :: r.vifs[i].members == MembersOf(pairs, b.vifs[i].id);
  }

  // The printed lines of a bridge give back all of it, the ports of every VIF included,
  // exactly if VIFs of one id have the same ports.
  lemma BridgeRecovered(bridges: seq<Bridge>, entries: RawInterfaces, ports: PortMap, k: nat)
    requires I.BridgesAre(bridges, entries, ports) && k < |bridges|
    ensures ReadBridge(BridgeLines(bridges[k])) == bridges[k] <==> OneMemberList(bridges[k].vifs)
  {
    var b := bridges[k];
    BridgeOrderly(bridges, entries, ports, k);
    OrderlyPairs(b);
    R.BridgeReadBack(b);
    AllMembersBack(b, PairsOf(BridgeLines(b)));
  }
}
