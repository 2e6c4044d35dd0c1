// What a normalized service LAN says about its input, in terms of the input's own
// fields: internal/normalize/service.go.
module Lans {
  import opened Wrappers
  import opened RenderData
  import opened ServiceLans
  import Text
  import Decimal
  import Netip
  import Ipv4
  import Sorting
  import Validate
  import I = Interfaces
  import Sections

  // ---- numbers and durations ----

  // A positive number, or a text that spells one.
  ghost predicate Counts(raw: RawNumber, n: int) {
    n >= 1 && ((raw.Number? && raw.value == n) || (raw.Str? && Decimal.Atoi(Text.TrimSpace(raw.text)) == Some(n)))
  }

  lemma RequiredExactly(raw: RawNumber, n: int)
    ensures RequiredPositive(raw) == Some(n) <==> Counts(raw, n)
  {
  }

  // The suffixes of a duration and the seconds they stand for; none is seconds too.
  ghost predicate Suffix(suffix: string, unit: int) {
    || (suffix == "" && unit == 1) || (suffix == "s" && unit == 1) || (suffix == "m" && unit == 60)
    || (suffix == "h" && unit == 60 * 60) || (suffix == "d" && unit == 24 * 60 * 60)
  }

  // A numeral and a suffix, with spaces around.
  ghost predicate DurationText(value: string, numeral: string, suffix: string, d: Duration) {
    Text.TrimSpace(value) == numeral + suffix && Decimal.Atoi(numeral) == Some(d.base) && Suffix(suffix, d.unit)
  }

  lemma LastDigit(numeral: string, n: int)
    requires Decimal.Atoi(numeral) == Some(n)
    ensures numeral != "" && Decimal.IsDigit(numeral[|numeral| - 1])
  {
    var body := if numeral[0] == '-' || numeral[0] == '+' then numeral[1..] else numeral;
    assert body[|body| - 1] == numeral[|numeral| - 1];
  }

  lemma ReadsDuration(value: string, d: Duration) returns (numeral: string, suffix: string)
    requires ReadDuration(value) == Some(d)
    ensures DurationText(value, numeral, suffix, d)
  {
    var text := Text.TrimSpace(value);
    var n := |text| - 1;
    if Unit(text[n]).Some? {
      numeral, suffix := text[..n], [text[n]];
    } else {
      numeral, suffix := text, "";
    }
    assert text == numeral + suffix;
  }

  lemma DurationRead(value: string, numeral: string, suffix: string, d: Duration)
    requires DurationText(value, numeral, suffix, d)
    ensures ReadDuration(value) == Some(d)
  {
    LastDigit(numeral, d.base);
    var text := numeral + suffix;
    if suffix == "" {
      assert text == numeral;
    } else {
      assert text[..|text| - 1] == numeral;
    }
  }

  lemma DurationExactly(value: string, d: Duration)
    ensures ReadDuration(value) == Some(d) <==> exists numeral, suffix :: DurationText(value, numeral, suffix, d)
  {
    if ReadDuration(value) == Some(d) {
      var numeral, suffix := ReadsDuration(value, d);
    }
    if numeral, suffix :| DurationText(value, numeral, suffix, d) {
      DurationRead(value, numeral, suffix, d);
    }
  }

  // A positive number of seconds, or a duration that is not too long and whose product
  // in 64-bit arithmetic is positive.
  ghost predicate Lasts(raw: RawNumber, secs: int) {
    && 1 <= secs <= Decimal.MAX_INT
    && (|| (raw.Number? && raw.value == secs)
        || (raw.Str? && exists d :: ReadDuration(raw.text) == Some(d) && Wraps(d, secs)))
  }

  ghost predicate Wraps(d: Duration, secs: int) {
    d.base * d.unit <= Decimal.MAX_INT && (secs - d.base * d.unit) % Ipv4.TWO64 == 0
  }

  lemma WrapExactly(x: int, y: int)
    requires Decimal.MIN_INT <= y <= Decimal.MAX_INT
    ensures Wrap(x) == y <==> (y - x) % Ipv4.TWO64 == 0
  {
  }

  lemma SecondsExactly(d: Duration, secs: int)
    requires 1 <= secs <= Decimal.MAX_INT
    ensures Seconds(d) == Some(secs) <==> Wraps(d, secs)
  {
    SecondsExact(d);
    WrapExactly(d.base * d.unit, secs);
  }

  lemma LeaseExactly(raw: RawNumber, secs: int)
    ensures LeaseTime(raw) == Some(secs) <==> Lasts(raw, secs)
  {
    if raw.Str? && ReadDuration(raw.text).Some? {
      var d := ReadDuration(raw.text).value;
      SecondsExact(d);
      if 1 <= secs <= Decimal.MAX_INT {
        SecondsExactly(d, secs);
      }
    }
  }

  // ---- one LAN ----

  // The pool of an input: lease-count addresses from network + lease-first on, all in the
  // block of the router's prefix and none of them reserved.
  ghost predicate Pool(input: ServiceLanInput, p: Netip.Prefix, start: Netip.Addr, stop: Netip.Addr) {
    && Validate.IsToken(input.name, false) && input.subnet == Netip.PrintPrefix(p)
    && Counts(input.dhcp.leaseFirst, start - p.Masked().addr) && Counts(input.dhcp.leaseCount, stop - start + 1)
    && AllFree(p.Masked(), p.addr, start, stop)
  }

  // A VLAN's id, or a number beyond all VLAN ids for its place.
  ghost predicate IsSubnetId(input: ServiceLanInput, id: int) {
    if input.isVlan && input.vlanId >= 1 then id == input.vlanId else id == 4051 + input.index
  }

  // The record of an input: its name; the router, the block around it, and the pool,
  // printed; the lease and the subnet id.
  ghost predicate Describes(
      r: ServiceLan, input: ServiceLanInput, p: Netip.Prefix, start: Netip.Addr, stop: Netip.Addr) {
    && r.name == input.name && r.lanIp == Netip.PrintAddr(p.addr) && r.prefix == Netip.PrintPrefix(p.Masked())
    && r.rangeStart == Netip.PrintAddr(start) && r.rangeStop == Netip.PrintAddr(stop)
    && IsSubnetId(input, r.subnetId)
  }

  lemma SubnetToken(p: Netip.Prefix)
    ensures Validate.IsToken(Netip.PrintPrefix(p), true) && Netip.ParsePrefix(Netip.PrintPrefix(p)) == Some(p)
  {
    Netip.PrintPrefixCharacters(p);
    Netip.ParsePrintPrefix(p);
  }

  lemma ReadsPool(input: ServiceLanInput) returns (p: Netip.Prefix)
    requires Resolve(input).Ok?
    ensures var lan := Resolve(input).value;
      && lan.router == p.addr && lan.block == p.Masked()
      && Pool(input, p, lan.start, lan.stop) && Lasts(input.dhcp.leaseTime, lan.leaseSecs)
  {
    var lan := Resolve(input).value;
    var first, count;
    p, first, count := ReadsCounts(input, lan);
    PoolOf(p.addr, p.Masked(), first, count, lan.start, lan.stop);
    IsPool(input, lan, p, first, count);
    LeaseExactly(input.dhcp.leaseTime, lan.leaseSecs);
  }

  lemma IsPool(input: ServiceLanInput, lan: Lan, p: Netip.Prefix, first: int, count: int)
    requires Validate.IsToken(input.name, false) && input.subnet == Netip.PrintPrefix(p)
    requires RequiredPositive(input.dhcp.leaseFirst) == Some(first) && first == lan.start - p.Masked().addr
    requires RequiredPositive(input.dhcp.leaseCount) == Some(count) && count == lan.stop - lan.start + 1
    requires AllFree(p.Masked(), p.addr, lan.start, lan.stop)
    ensures Pool(input, p, lan.start, lan.stop)
  {
    RequiredExactly(input.dhcp.leaseFirst, first);
    RequiredExactly(input.dhcp.leaseCount, count);
  }

  lemma ReadsCounts(input: ServiceLanInput, lan: Lan) returns (p: Netip.Prefix, first: int, count: int)
    requires Resolve(input) == Ok(lan)
    ensures Validate.IsToken(input.name, false) && input.subnet == Netip.PrintPrefix(p)
    ensures RequiredPositive(input.dhcp.leaseFirst) == Some(first) && first == lan.start - p.Masked().addr
    ensures RequiredPositive(input.dhcp.leaseCount) == Some(count) && count == lan.stop - lan.start + 1
    ensures LeaseTime(input.dhcp.leaseTime) == Some(lan.leaseSecs) && PoolFits(p.addr, p.Masked(), first, count)
    ensures lan.router == p.addr && lan.block == p.Masked() == p.Masked().Masked()
  {
    ResolveExact(input);
    p := Netip.ParsePrefix(input.subnet).value;
    first, count := RequiredPositive(input.dhcp.leaseFirst).value, RequiredPositive(input.dhcp.leaseCount).value;
    Netip.PrefixExactly(input.subnet, p);
    Ipv4.ContainsIsInBlock(p, p.addr);
  }

  lemma PoolOf(
      router: Netip.Addr, block: Netip.Prefix, first: int, count: int, start: Netip.Addr, stop: Netip.Addr)
    requires block.Masked() == block && PoolFits(router, block, first, count)
    requires first == start - block.addr && count == stop - start + 1
    ensures AllFree(block, router, start, stop)
  {
  }

  lemma PoolResolves(input: ServiceLanInput, p: Netip.Prefix, start: Netip.Addr, stop: Netip.Addr, secs: int)
    requires Pool(input, p, start, stop) && Lasts(input.dhcp.leaseTime, secs)
    ensures Resolve(input) == Ok(Lan(p.addr, p.Masked(), secs, start, stop))
  {
    PoolCounts(input, p, start, stop);
    LeaseExactly(input.dhcp.leaseTime, secs);
    PoolFitsAs(input, p, start, stop);
    PoolText(input, p, start, stop);
    ResolvesAs(input, p, start, stop, secs);
  }

  lemma ResolvesAs(input: ServiceLanInput, p: Netip.Prefix, start: Netip.Addr, stop: Netip.Addr, secs: int)
    requires Validate.IsToken(input.name, false) && Validate.IsToken(input.subnet, true)
    requires Netip.ParsePrefix(input.subnet) == Some(p) && LeaseTime(input.dhcp.leaseTime) == Some(secs)
    requires RequiredPositive(input.dhcp.leaseFirst) == Some(start - p.Masked().addr)
    requires RequiredPositive(input.dhcp.leaseCount) == Some(stop - start + 1)
    requires PoolFits(p.addr, p.Masked(), start - p.Masked().addr, stop - start + 1)
    ensures Resolve(input) == Ok(Lan(p.addr, p.Masked(), secs, start, stop))
  {
    Resolves(input, p, start - p.Masked().addr, stop - start + 1, secs);
    SameLan(Resolve(input).value, p, secs, start, stop);
  }

  lemma SameLan(lan: Lan, p: Netip.Prefix, secs: int, start: Netip.Addr, stop: Netip.Addr)
    requires lan.router == p.addr && lan.block == p.Masked() && lan.leaseSecs == secs
    requires lan.start == p.Masked().addr + (start - p.Masked().addr)
    requires lan.stop == p.Masked().addr + (start - p.Masked().addr) + (stop - start + 1) - 1
    ensures lan == Lan(p.addr, p.Masked(), secs, start, stop)
  {
  }

  lemma PoolText(input: ServiceLanInput, p: Netip.Prefix, start: Netip.Addr, stop: Netip.Addr)
    requires Pool(input, p, start, stop)
    ensures Validate.IsToken(input.name, false) && Validate.IsToken(input.subnet, true)
    ensures Netip.ParsePrefix(input.subnet) == Some(p)
  {
    SubnetToken(p);
  }

  lemma PoolCounts(input: ServiceLanInput, p: Netip.Prefix, start: Netip.Addr, stop: Netip.Addr)
    requires Pool(input, p, start, stop)
    ensures RequiredPositive(input.dhcp.leaseFirst) == Some(start - p.Masked().addr)
    ensures RequiredPositive(input.dhcp.leaseCount) == Some(stop - start + 1)
  {
    RequiredExactly(input.dhcp.leaseFirst, start - p.Masked().addr);
    RequiredExactly(input.dhcp.leaseCount, stop - start + 1);
  }

  lemma PoolFitsAs(input: ServiceLanInput, p: Netip.Prefix, start: Netip.Addr, stop: Netip.Addr)
    requires Pool(input, p, start, stop)
    ensures PoolFits(p.addr, p.Masked(), start - p.Masked().addr, stop - start + 1)
  {
    Ipv4.ContainsIsInBlock(p, p.addr);
    FitsAs(p.addr, p.Masked(), start, stop);
  }

  lemma Resolves(input: ServiceLanInput, p: Netip.Prefix, first: int, count: int, secs: int)
    requires Validate.IsToken(input.name, false) && Validate.IsToken(input.subnet, true)
    requires Netip.ParsePrefix(input.subnet) == Some(p) && LeaseTime(input.dhcp.leaseTime) == Some(secs)
    requires RequiredPositive(input.dhcp.leaseFirst) == Some(first)
    requires RequiredPositive(input.dhcp.leaseCount) == Some(count) && PoolFits(p.addr, p.Masked(), first, count)
    ensures Resolve(input).Ok?
    ensures var lan := Resolve(input).value;
      && lan.router == p.addr && lan.block == p.Masked() && lan.leaseSecs == secs
      && lan.start == p.Masked().addr + first && lan.stop == p.Masked().addr + first + count - 1
  {
    ResolveExact(input);
  }

  lemma FitsAs(router: Netip.Addr, block: Netip.Prefix, start: Netip.Addr, stop: Netip.Addr)
    requires AllFree(block, router, start, stop) && block.Masked() == block && block.addr <= start
    ensures PoolFits(router, block, start - block.addr, stop - start + 1)
  {
  }

  // A LAN is accepted exactly with such a pool and lease, and then printed so.
  lemma LanExactly(input: ServiceLanInput, r: ServiceLan)
    ensures (Normalize(input).Ok? && Normalize(input).value.lan == r)
      <==> exists p, start, stop ::
        Pool(input, p, start, stop) && Lasts(input.dhcp.leaseTime, r.leaseSecs) && Describes(r, input, p, start, stop)
  {
    if Normalize(input).Ok? && Normalize(input).value.lan == r {
      var p := ReadsPool(input);
      var lan := Resolve(input).value;
      assert Describes(r, input, p, lan.start, lan.stop);
    }
    if p, start, stop :|
        Pool(input, p, start, stop) && Lasts(input.dhcp.leaseTime, r.leaseSecs) && Describes(r, input, p, start, stop) {
      PoolResolves(input, p, start, stop, r.leaseSecs);
    }
  }

  // What is kept beside the record, for the order and for the search of overlaps.
  lemma EntryExactly(input: ServiceLanInput)
    requires Normalize(input).Ok?
    ensures var e := Normalize(input).value;
      && e.index == input.index && e.isVlan == input.isVlan && e.vlanId == input.vlanId
      && e.lan.prefix == Netip.PrintPrefix(e.block)
  {
    LanExactly(input, Normalize(input).value.lan);
  }

  // ---- many LANs ----

  // Plain LANs by their place, before VLANs by their ids; VLANs of one id by name, and
  // of one name by block.
  lemma OrderExactly(order: seq<Entry>, inputs: seq<ServiceLanInput>, i: nat, j: nat)
    requires AllAccepted(inputs) && IsOrdering(order, inputs) && i < j < |order|
    ensures var a, b := order[i], order[j];
      && (a.isVlan ==> b.isVlan)
      && (!a.isVlan && !b.isVlan ==> a.index <= b.index)
      && (a.isVlan && b.isVlan ==> a.vlanId <= b.vlanId)
      && (a.isVlan && b.isVlan && a.vlanId == b.vlanId ==>
            a.lan.name == b.lan.name || Text.Less(a.lan.name, b.lan.name))
      && (a.isVlan && b.isVlan && a.vlanId == b.vlanId && a.lan.name == b.lan.name ==>
            a.lan.prefix == b.lan.prefix || Text.Less(a.lan.prefix, b.lan.prefix))
  {
    assert !LanLess(order[j], order[i]);
    Text.LessTotal(order[i].lan.name, order[j].lan.name);
    Text.LessTotal(order[i].lan.prefix, order[j].lan.prefix);
  }

  // Every LAN of the result is that of one input, and every input has its LAN.
  lemma ResultExactly(lans: seq<ServiceLan>, inputs: seq<ServiceLanInput>)
    requires IsResult(lans, inputs)
    ensures |lans| == |inputs|
    ensures forall r :: r in lans <==> exists i | 0 <= i < |inputs| :: Normalize(inputs[i]).value.lan == r
  {
    var order :| IsOrdering(order, inputs) && lans == Records(order);
    Sorting.SameElements(order, Entries(inputs));
    forall r
      ensures r in lans <==> exists i | 0 <= i < |inputs| :: Normalize(inputs[i]).value.lan == r
    {
      RecordOf(order, inputs, r);
    }
  }

  lemma RecordOf(order: seq<Entry>, inputs: seq<ServiceLanInput>, r: ServiceLan)
    requires AllAccepted(inputs) && forall x :: x in order <==> x in Entries(inputs)
    ensures r in Records(order) <==> exists i | 0 <= i < |inputs| :: Normalize(inputs[i]).value.lan == r
  {
    if r in Records(order) {
      var i := InputOf(order, inputs, r);
    }
    if i :| 0 <= i < |inputs| && Normalize(inputs[i]).value.lan == r {
      Recorded(order, Entries(inputs)[i]);
    }
  }

  lemma InputOf(order: seq<Entry>, inputs: seq<ServiceLanInput>, r: ServiceLan) returns (i: nat)
    requires AllAccepted(inputs) && (forall x | x in order :: x in Entries(inputs)) && r in Records(order)
    ensures i < |inputs| && Normalize(inputs[i]).value.lan == r
  {
    var k :| 0 <= k < |order| && Records(order)[k] == r;
    assert order[k] in Entries(inputs);
    i :| 0 <= i < |inputs| && Entries(inputs)[i] == order[k];
  }

  lemma Recorded(order: seq<Entry>, e: Entry)
    requires e in order
    ensures e.lan in Records(order)
  {
    var k :| 0 <= k < |order| && order[k] == e;
    assert Records(order)[k] == e.lan;
  }

  // ---- subnet ids ----

  // The subnet id of an entry's LAN.
  ghost predicate IdOf(e: RawInterface, i: nat, id: int) {
    if Sections.Tagged(e) then e.vlan.value == id else id == 4051 + i
  }

  // A tagged entry's LAN has the id of the VIF that the entry becomes; a plain one's has
  // 4051 plus the entry's place.
  lemma SubnetIdExactly(entries: RawInterfaces, ports: PortMap, k: nat)
    requires k < |I.Inputs(entries, |entries|)| && Normalize(I.Inputs(entries, |entries|)[k]).Ok?
    ensures var n := |entries|;
      var i, id := I.Indices(entries, n, I.IsService)[k], Normalize(I.Inputs(entries, n)[k]).value.lan.subnetId;
      && i < n && IdOf(entries[i], i, id)
      && (Sections.Tagged(entries[i]) ==>
            exists v :: v in I.Vifs(entries, n, ports) && Sections.VifRealizes(v, entries[i], ports) && v.id == id)
  {
    var n := |entries|;
    var input := I.Inputs(entries, n)[k];
    var i := I.Indices(entries, n, I.IsService)[k];
    Sections.InputsExactly(entries);
    assert i in I.Indices(entries, n, I.IsService);
    IdOfInput(input);
    if Sections.Tagged(entries[i]) {
      VifOfEntry(entries, ports, i);
    }
  }

  lemma IdOfInput(input: ServiceLanInput)
    requires Normalize(input).Ok?
    ensures IsSubnetId(input, Normalize(input).value.lan.subnetId)
  {
    LanExactly(input, Normalize(input).value.lan);
  }

  lemma VifOfEntry(entries: RawInterfaces, ports: PortMap, i: nat)
    requires i < |entries| && entries[i].role == "downstream" && Sections.Tagged(entries[i])
    ensures exists v :: v in I.Vifs(entries, |entries|, ports) && Sections.VifRealizes(v, entries[i], ports)
  {
    Sections.VifsExactly(entries, ports);
    var at := I.Indices(entries, |entries|, I.IsVif);
    assert i in at;
    var k :| 0 <= k < |at| && at[k] == i;
    assert Sections.VifRealizes(I.Vifs(entries, |entries|, ports)[k], entries[i], ports);
    assert I.Vifs(entries, |entries|, ports)[k] in I.Vifs(entries, |entries|, ports);
  }

  // The ids of static VLANs differ and stay below 4051.
  ghost predicate DistinctVlans(entries: seq<RawInterface>) {
    && (forall i | 0 <= i < |entries| && Sections.Tagged(entries[i]) :: entries[i].vlan.value <= 4050)
    && forall i, j | 0 <= i < j < |entries| && Sections.Tagged(entries[i]) && Sections.Tagged(entries[j]) ::
         entries[i].vlan != entries[j].vlan
  }

  // Then the subnet ids of all LANs differ.
  lemma SubnetIdsDistinct(entries: RawInterfaces, ports: PortMap, j: nat, k: nat)
    requires DistinctVlans(entries) && j < k < |I.Inputs(entries, |entries|)|
    requires Normalize(I.Inputs(entries, |entries|)[j]).Ok? && Normalize(I.Inputs(entries, |entries|)[k]).Ok?
    ensures Normalize(I.Inputs(entries, |entries|)[j]).value.lan.subnetId
      != Normalize(I.Inputs(entries, |entries|)[k]).value.lan.subnetId
  {
    SubnetIdExactly(entries, ports, j);
    SubnetIdExactly(entries, ports, k);
    Sections.InputsExactly(entries);
  }

  // ---- SSH ----

  // The port is opened exactly if one is given, and it must be one.
  lemma SshExactly(raw: RawNumber, ssh: Ssh)
    ensures NormalizeSsh(raw) == Some(ssh) <==> (
      || (raw.Absent? && ssh == Ssh(false, 0))
      || (raw.Number? && ssh == Ssh(true, raw.value) && 0 < raw.value < 0x1_0000))
  {
  }
}
