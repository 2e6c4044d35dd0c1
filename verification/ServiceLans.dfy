// Normalization of the service LANs: internal/normalize/service.go.
module ServiceLans {
  import opened Wrappers
  import opened RenderData
  import Text
  import Decimal
  import Netip
  import Ipv4
  import Sorting
  import Validate

  // ---- lease times ----

  // A product in 64-bit two's complement.
  function Wrap(x: int): int {
    (x - Decimal.MIN_INT) % Ipv4.TWO64 + Decimal.MIN_INT
  }

  function Unit(c: char): Option<Factor> {
    if c == 's' then Some(1)
    else if c == 'm' then Some(60)
    else if c == 'h' then Some(60 * 60)
    else if c == 'd' then Some(24 * 60 * 60)
    else None
  }

  type Factor = u: int | u == 1 || u == 60 || u == 3600 || u == 86400 witness 1

  datatype Duration = Duration(base: int, unit: Factor)

  // The number and the unit that a duration text stands for.
  function ReadDuration(value: string): Option<Duration> {
    var text := Text.TrimSpace(value);
    if text == "" then None
    else
      var n := |text| - 1;
      var unit := Unit(text[n]);
      match Decimal.Atoi(if unit.Some? then text[..n] else text)
      case Some(base) => Some(Duration(base, unit.GetOr(1)))
      case None => None
  }

  // parseLeaseTimeString: the guard bounds the product only from above.
  method ParseLeaseTimeString(value: string) returns (r: Option<int>)
    ensures r == LeaseSeconds(value)
  {
    var text := Text.TrimSpace(value);
    if text == "" {
      return None;
    }
    var multiplier := 1;
    var last := text[|text| - 1];
    if last == 's' {
      text := text[..|text| - 1];
    } else if last == 'm' {
      text := text[..|text| - 1];
      multiplier := 60;
    } else if last == 'h' {
      text := text[..|text| - 1];
      multiplier := 60 * 60;
    } else if last == 'd' {
      text := text[..|text| - 1];
      multiplier := 24 * 60 * 60;
    }
    var base := Decimal.Atoi(text);
    if base.None? {
      return None;
    }
    if base.value > Decimal.MAX_INT / multiplier {
      return None;
    }
    return Some(Wrap(base.value * multiplier));
  }

  function Seconds(d: Duration): Option<int> {
    if d.base > Decimal.MAX_INT / d.unit then None else Some(Wrap(d.base * d.unit))
  }

  function LeaseSeconds(value: string): Option<int> {
    match ReadDuration(value)
    case None => None
    case Some(d) => Seconds(d)
  }

  lemma SecondsExact(d: Duration)
    ensures Seconds(d) == Some(d.base * d.unit) <==> Decimal.MIN_INT <= d.base * d.unit <= Decimal.MAX_INT
    ensures Seconds(d).None? <==> d.base * d.unit > Decimal.MAX_INT
    ensures Seconds(d).Some? ==> Decimal.MIN_INT <= Seconds(d).value <= Decimal.MAX_INT
    ensures d.base >= 1 <==> d.base * d.unit >= 1
  {
    if d.unit == 60 {
      assert d.base * d.unit == d.base * 60;
    } else if d.unit == 3600 {
      assert d.base * d.unit == d.base * 3600;
    } else if d.unit == 86400 {
      assert d.base * d.unit == d.base * 86400;
    }
  }

  // The result is the duration that the text stands for exactly when that fits into
  // 64 bits; only a duration that is too long is refused.
  lemma LeaseSecondsExact(value: string)
    requires ReadDuration(value).Some?
    ensures var d := ReadDuration(value).value;
      && (LeaseSeconds(value) == Some(d.base * d.unit) <==> Decimal.MIN_INT <= d.base * d.unit <= Decimal.MAX_INT)
      && (LeaseSeconds(value).None? <==> d.base * d.unit > Decimal.MAX_INT)
  {
    SecondsExact(ReadDuration(value).value);
  }

  // parseLeaseTime
  function LeaseTime(raw: RawNumber): Option<int> {
    match raw
    case Absent => None
    case Number(secs) => if secs < 1 then None else Some(secs)
    case Str(value) =>
      (match LeaseSeconds(value)
       case Some(secs) => if secs < 1 then None else Some(secs)
       case None => None)
    case Other => None
  }

  // An accepted lease time is the one the text stands for exactly if its number is
  // positive.
  lemma LeaseTimeExact(value: string)
    requires LeaseTime(Str(value)).Some?
    ensures ReadDuration(value).Some?
    ensures var d := ReadDuration(value).value;
      LeaseTime(Str(value)) == Some(d.base * d.unit) <==> d.base >= 1
  {
    SecondsExact(ReadDuration(value).value);
  }

  lemma DayText(number: string, base: int)
    requires number != [] && !Text.IsSpace(number[0]) && Decimal.Atoi(number) == Some(base)
    ensures ReadDuration(number + "d") == Some(Duration(base, 86400))
  {
    var value := number + "d";
    assert value[0] == number[0] && value[|value| - 1] == 'd';
    Text.TrimSpaceFixed(value);
    assert value[..|value| - 1] == number;
  }

  lemma FirstOfNumber(n: int)
    ensures Decimal.Itoa(n) != [] && !Text.IsSpace(Decimal.Itoa(n)[0])
  {
    var digits := Decimal.Digits(if n < 0 then -n else n);
    assert Decimal.IsDigit(digits[0]);
  }

  // Every 64-bit number of days can be written down.
  lemma DaysText(base: Decimal.Int64)
    ensures ReadDuration(Decimal.Itoa(base) + "d") == Some(Duration(base, 86400))
  {
    Decimal.AtoiItoa(base);
    FirstOfNumber(base);
    DayText(Decimal.Itoa(base), base);
  }

  // A number of days is accepted as what its product wraps to, if that is positive.
  lemma DaysAccepted(base: Decimal.Int64, secs: int)
    requires base <= Decimal.MAX_INT / 86400 && secs == Wrap(base * 86400) && secs >= 1
    ensures LeaseTime(Str(Decimal.Itoa(base) + "d")) == Some(secs)
  {
    DaysText(base);
  }

  // A negative number of days can come out as a positive lease time.
  lemma NegativeLeaseAccepted()
    ensures LeaseTime(Str(Decimal.Itoa(-106751991167301) + "d")) == Some(9223372036854745216)
  {
    DaysAccepted(-106751991167301, 9223372036854745216);
  }

  // parseRequiredPositiveInt
  function RequiredPositive(raw: RawNumber): Option<int> {
    var value :=
      match raw
      case Number(v) => Some(v as int)
      case Str(text) => Decimal.Atoi(Text.TrimSpace(text))
      case _ => None;
    if value.Some? && value.value < 1 then None else value
  }

  lemma PositiveFits(raw: RawNumber)
    requires RequiredPositive(raw).Some?
    ensures 1 <= RequiredPositive(raw).value <= Decimal.MAX_INT
  {
  }

  // ---- one LAN ----

  datatype LanError =
    | BadName | BadSubnet | BadLeaseTime | BadLeaseFirst | BadLeaseCount
    | StartOverflow | StopOverflow | OutsideSubnet | ReservedAddress

  // The numbers of a LAN: its router, its block, and its address pool.
  datatype Lan = Lan(router: Netip.Addr, block: Netip.Prefix, leaseSecs: int, start: Netip.Addr, stop: Netip.Addr)

  // validateDHCPRange
  predicate ReservedInRange(block: Netip.Prefix, router: Netip.Addr, start: Netip.Addr, stop: Netip.Addr) {
    exists v | v in [block.Masked().addr, Ipv4.Broadcast(block), router] :: start <= v <= stop
  }

  // The range checks of normalizeServiceLAN.
  function Range(
    router: Netip.Addr, block: Netip.Prefix, leaseSecs: int, first: int, count: int): Result<Lan, LanError>
  {
    match Ipv4.Add(block.addr, first)
    case None => Err(StartOverflow)
    case Some(start) =>
      match Ipv4.Add(start, count - 1)
      case None => Err(StopOverflow)
      case Some(stop) =>
        if !block.Contains(start) || !block.Contains(stop) then Err(OutsideSubnet)
        else if ReservedInRange(block, router, start, stop) then Err(ReservedAddress)
        else Ok(Lan(router, block, leaseSecs, start, stop))
  }

  // normalizeServiceLAN up to the printing of its result
  function Resolve(input: ServiceLanInput): Result<Lan, LanError> {
    if !Validate.IsToken(input.name, false) then Err(BadName)
    else if !Validate.IsToken(input.subnet, true) || Netip.ParsePrefix(input.subnet).None? then Err(BadSubnet)
    else
      var prefix := Netip.ParsePrefix(input.subnet).value;
      match (LeaseTime(input.dhcp.leaseTime), RequiredPositive(input.dhcp.leaseFirst),
        RequiredPositive(input.dhcp.leaseCount))
      case (None, _, _) => Err(BadLeaseTime)
      case (Some(_), None, _) => Err(BadLeaseFirst)
      case (Some(_), Some(_), None) => Err(BadLeaseCount)
      case (Some(secs), Some(first), Some(count)) => Range(prefix.addr, prefix.Masked(), secs, first, count)
  }

  function SubnetId(input: ServiceLanInput): int {
    if input.isVlan && input.vlanId > 0 then input.vlanId else 4051 + input.index
  }

  function Record(input: ServiceLanInput, lan: Lan): ServiceLan {
    ServiceLan(
      input.name, Netip.PrintAddr(lan.router), Netip.PrintPrefix(lan.block), lan.leaseSecs,
      Netip.PrintAddr(lan.start), Netip.PrintAddr(lan.stop), SubnetId(input))
  }

  // The addresses network + first, ..., network + first + count - 1 fit into 32 bits,
  // lie in the block, and are none of its reserved addresses.
  ghost predicate PoolFits(router: Netip.Addr, block: Netip.Prefix, first: int, count: int) {
    var network := block.Masked().addr;
    && network + first + count - 1 < Netip.TWO32
    && AllFree(block, router, network + first, network + first + count - 1)
  }

  // The checks accept a pool exactly if it fits, and no machine arithmetic wraps.
  lemma RangeExact(router: Netip.Addr, block: Netip.Prefix, leaseSecs: int, first: int, count: int)
    requires block.Masked() == block
    requires 1 <= first <= Decimal.MAX_INT && 1 <= count <= Decimal.MAX_INT
    ensures Range(router, block, leaseSecs, first, count).Ok? <==> PoolFits(router, block, first, count)
    ensures Range(router, block, leaseSecs, first, count).Ok? ==>
      var start := block.addr + first;
      && start + count - 1 < Netip.TWO32
      && Range(router, block, leaseSecs, first, count).value == Lan(router, block, leaseSecs, start, start + count - 1)
  {
    if block.addr + first + count - 1 < Netip.TWO32 {
      RangeFits(router, block, leaseSecs, first, count);
    } else {
      RangeOverflows(router, block, leaseSecs, first, count);
    }
  }

  lemma RangeFits(router: Netip.Addr, block: Netip.Prefix, leaseSecs: int, first: int, count: int)
    requires block.Masked() == block && 1 <= first && 1 <= count && block.addr + first + count - 1 < Netip.TWO32
    ensures var start, stop, r :=
        block.addr + first, block.addr + first + count - 1, Range(router, block, leaseSecs, first, count);
      && (r.Ok? <==> AllFree(block, router, start, stop))
      && (r.Ok? ==> r.value == Lan(router, block, leaseSecs, start, stop))
  {
    RangeWithin(router, block, leaseSecs, first, count);
    RangeInBlock(router, block, block.addr + first, block.addr + first + count - 1);
  }

  lemma RangeWithin(router: Netip.Addr, block: Netip.Prefix, leaseSecs: int, first: int, count: int)
    requires 1 <= first && 1 <= count && block.addr + first + count - 1 < Netip.TWO32
    ensures var start: Netip.Addr, stop: Netip.Addr := block.addr + first, block.addr + first + count - 1;
      var r := Range(router, block, leaseSecs, first, count);
      && (r.Ok? <==> block.Contains(start) && block.Contains(stop) && !ReservedInRange(block, router, start, stop))
      && (r.Ok? ==> r.value == Lan(router, block, leaseSecs, start, stop))
  {
    Ipv4.AddExact(block.addr, first);
    Ipv4.AddExact(block.addr + first, count - 1);
    RangeOf(router, block, leaseSecs, first, count, block.addr + first, block.addr + first + count - 1);
  }

  lemma RangeOf(
    router: Netip.Addr, block: Netip.Prefix, leaseSecs: int, first: int, count: int,
    start: Netip.Addr, stop: Netip.Addr)
    requires Ipv4.Add(block.addr, first) == Some(start) && Ipv4.Add(start, count - 1) == Some(stop)
    ensures var r := Range(router, block, leaseSecs, first, count);
      && (r.Ok? <==> block.Contains(start) && block.Contains(stop) && !ReservedInRange(block, router, start, stop))
      && (r.Ok? ==> r.value == Lan(router, block, leaseSecs, start, stop))
  {
  }

  lemma RangeOverflows(router: Netip.Addr, block: Netip.Prefix, leaseSecs: int, first: int, count: int)
    requires 1 <= first <= Decimal.MAX_INT && 1 <= count <= Decimal.MAX_INT
    requires block.addr + first + count - 1 >= Netip.TWO32
    ensures Range(router, block, leaseSecs, first, count).Err?
  {
    Ipv4.AddExact(block.addr, first);
    if block.addr + first < Netip.TWO32 {
      Ipv4.AddExact(block.addr + first, count - 1);
    }
  }

  ghost predicate Free(block: Netip.Prefix, router: Netip.Addr, a: Netip.Addr) {
    Ipv4.InBlock(block, a) && a != block.Masked().addr && a != Ipv4.Broadcast(block) && a != router
  }

  predicate Strictly(lo: int, a: int, hi: int, router: int) {
    lo < a < hi && a != router
  }

  // Checking the ends of an interval against an interval and three points.
  lemma EndsSuffice(start: int, stop: int, lo: int, hi: int, router: int)
    requires start <= stop
    ensures (lo <= start <= hi && lo <= stop <= hi
             && !(start <= lo <= stop) && !(start <= hi <= stop) && !(start <= router <= stop))
      <==> forall a | start <= a <= stop :: Strictly(lo, a, hi, router)
  {
    if forall a | start <= a <= stop :: Strictly(lo, a, hi, router) {
      assert Strictly(lo, start, hi, router) && Strictly(lo, stop, hi, router);
      assert !Strictly(lo, router, hi, router);
    }
  }

  lemma FreeMeans(block: Netip.Prefix, router: Netip.Addr, a: Netip.Addr)
    ensures Free(block, router, a) <==> Strictly(block.Masked().addr, a, Ipv4.Broadcast(block), router)
    ensures block.Contains(a) <==> block.Masked().addr <= a <= Ipv4.Broadcast(block)
  {
    Ipv4.BroadcastIsLast(block);
    Ipv4.ContainsIsInBlock(block, a);
  }

  lemma ReservedMeans(block: Netip.Prefix, router: Netip.Addr, start: Netip.Addr, stop: Netip.Addr)
    ensures ReservedInRange(block, router, start, stop)
      <==> start <= block.Masked().addr <= stop || start <= Ipv4.Broadcast(block) <= stop || start <= router <= stop
  {
    var reserved := [block.Masked().addr, Ipv4.Broadcast(block), router];
    assert reserved[0] in reserved && reserved[1] in reserved && reserved[2] in reserved;
  }

  ghost predicate AllFree(block: Netip.Prefix, router: Netip.Addr, start: int, stop: int) {
    forall a: Netip.Addr | start <= a <= stop :: Free(block, router, a)
  }

  lemma AllFreeMeans(block: Netip.Prefix, router: Netip.Addr, start: Netip.Addr, stop: Netip.Addr)
    ensures AllFree(block, router, start, stop)
      <==> forall a | start <= a <= stop :: Strictly(block.Masked().addr, a, Ipv4.Broadcast(block), router)
  {
    forall a: Netip.Addr | start <= a <= stop
      ensures Free(block, router, a) <==> Strictly(block.Masked().addr, a, Ipv4.Broadcast(block), router)
    {
      FreeMeans(block, router, a);
    }
  }

  lemma RangeInBlock(router: Netip.Addr, block: Netip.Prefix, start: Netip.Addr, stop: Netip.Addr)
    requires start <= stop
    ensures (block.Contains(start) && block.Contains(stop) && !ReservedInRange(block, router, start, stop))
      <==> AllFree(block, router, start, stop)
  {
    FreeMeans(block, router, start);
    FreeMeans(block, router, stop);
    ReservedMeans(block, router, start, stop);
    EndsSuffice(start, stop, block.Masked().addr, Ipv4.Broadcast(block), router);
    AllFreeMeans(block, router, start, stop);
  }

  // What the input of an accepted LAN must be, and what it becomes: exactly
  // lease-count addresses from network + lease-first on, in a block of at least four.
  lemma ResolveExact(input: ServiceLanInput)
    ensures Resolve(input).Ok? <==>
      && Validate.IsToken(input.name, false) && Validate.IsToken(input.subnet, true)
      && Netip.ParsePrefix(input.subnet).Some? && LeaseTime(input.dhcp.leaseTime).Some?
      && RequiredPositive(input.dhcp.leaseFirst).Some? && RequiredPositive(input.dhcp.leaseCount).Some?
      && var prefix := Netip.ParsePrefix(input.subnet).value;
         PoolFits(prefix.addr, prefix.Masked(), RequiredPositive(input.dhcp.leaseFirst).value,
           RequiredPositive(input.dhcp.leaseCount).value)
    ensures Resolve(input).Ok? ==>
      var prefix := Netip.ParsePrefix(input.subnet).value;
      var first, count := RequiredPositive(input.dhcp.leaseFirst).value, RequiredPositive(input.dhcp.leaseCount).value;
      var lan := Resolve(input).value;
      && lan.router == prefix.addr && lan.block == prefix.Masked() && lan.block.bits <= 30
      && lan.start == lan.block.addr + first && lan.stop == lan.start + count - 1
      && Some(lan.leaseSecs) == LeaseTime(input.dhcp.leaseTime) && Safe(lan)
  {
    var prefix := Netip.ParsePrefix(input.subnet);
    var secs, first, count :=
      LeaseTime(input.dhcp.leaseTime), RequiredPositive(input.dhcp.leaseFirst), RequiredPositive(input.dhcp.leaseCount);
    if prefix.Some? && secs.Some? && first.Some? && count.Some? {
      var block := prefix.value.Masked();
      PositiveFits(input.dhcp.leaseFirst);
      PositiveFits(input.dhcp.leaseCount);
      Ipv4.ContainsIsInBlock(prefix.value, prefix.value.addr);
      RangeExact(prefix.value.addr, block, secs.value, first.value, count.value);
      if PoolFits(prefix.value.addr, block, first.value, count.value) {
        AtLeastFour(block, prefix.value.addr, block.addr + first.value);
      }
    }
  }

  // A LAN whose pool is free of reserved addresses, with its router in its block.
  ghost predicate Safe(lan: Lan) {
    && lan.block.Masked() == lan.block && lan.start <= lan.stop
    && AllFree(lan.block, lan.router, lan.start, lan.stop) && lan.block.Contains(lan.router)
  }

  lemma AtLeastFour(block: Netip.Prefix, router: Netip.Addr, a: Netip.Addr)
    requires Free(block, router, a)
    ensures block.bits <= 30
  {
    FreeMeans(block, router, a);
    Ipv4.BroadcastIsLast(block);
    assert Netip.Pow2(1) == 2 && Netip.Pow2(0) == 1;
  }

  // ---- all LANs ----

  datatype Entry = Entry(lan: ServiceLan, block: Netip.Prefix, index: Index, isVlan: bool, vlanId: Decimal.Int64)

  function EntryOf(input: ServiceLanInput, lan: Lan): Entry {
    Entry(Record(input, lan), lan.block, input.index, input.isVlan, input.vlanId)
  }

  ghost predicate Disjoint(entries: seq<Entry>) {
    forall i, j | 0 <= i < j < |entries| :: !Ipv4.Intersect(entries[i].block, entries[j].block)
  }

  ghost predicate AllMasked(entries: seq<Entry>) {
    forall i | 0 <= i < |entries| :: entries[i].block.Masked() == entries[i].block
  }

  // validateNoOverlappingServiceLANPrefixes: the first overlapping pair
  method FindOverlap(entries: seq<Entry>) returns (r: Option<(nat, nat)>)
    requires AllMasked(entries)
    ensures r.None? <==> Disjoint(entries)
    ensures r.Some? ==>
      var (i, j) := r.value;
      && i < j < |entries| && Ipv4.Intersect(entries[i].block, entries[j].block)
      && (forall k, l | 0 <= k < i && k < l < |entries| :: !Ipv4.Intersect(entries[k].block, entries[l].block))
      && forall l | i < l < j :: !Ipv4.Intersect(entries[i].block, entries[l].block)
  {
    for i := 0 to |entries|
      invariant forall k, l | 0 <= k < i && k < l < |entries| :: !Ipv4.Intersect(entries[k].block, entries[l].block)
    {
      for j := i + 1 to |entries|
        invariant forall l | i < l < j :: !Ipv4.Intersect(entries[i].block, entries[l].block)
      {
        var left, right := entries[i].block, entries[j].block;
        Ipv4.OverlapExact(left, right);
        if left.Contains(right.addr) || right.Contains(left.addr) {
          return Some((i, j));
        }
      }
    }
    return None;
  }

  // The order of the result.
  predicate LanLess(a: Entry, b: Entry) {
    if a.isVlan != b.isVlan then !a.isVlan
    else if !a.isVlan && a.index != b.index then a.index < b.index
    else if a.isVlan && a.vlanId != b.vlanId then a.vlanId < b.vlanId
    else if a.lan.name != b.lan.name then Text.Less(a.lan.name, b.lan.name)
    else Text.Less(a.lan.prefix, b.lan.prefix)
  }

  lemma LanLessOrder()
    ensures Sorting.StrictWeakOrder(LanLess)
  {
    forall a, b
      ensures Sorting.Before(LanLess, a, b) ==> !Sorting.Before(LanLess, b, a)
    {
      Text.LessTotal(a.lan.name, b.lan.name);
      Text.LessTotal(a.lan.prefix, b.lan.prefix);
    }
    forall a, b, c
      ensures Sorting.Before(LanLess, a, b) && Sorting.Before(LanLess, b, c) ==> Sorting.Before(LanLess, a, c)
      ensures !Sorting.Before(LanLess, a, b) && !Sorting.Before(LanLess, b, c) ==> !Sorting.Before(LanLess, a, c)
    {
      LanLessTriple(a, b, c);
    }
  }

  lemma LanLessTriple(a: Entry, b: Entry, c: Entry)
    ensures LanLess(a, b) && LanLess(b, c) ==> LanLess(a, c)
    ensures !LanLess(a, b) && !LanLess(b, c) ==> !LanLess(a, c)
  {
    Text.LessTotal(a.lan.name, b.lan.name);
    Text.LessTotal(b.lan.name, c.lan.name);
    Text.LessTotal(a.lan.name, c.lan.name);
    Sorting.StringTransitive(a.lan.name, b.lan.name, c.lan.name);
    Sorting.StringTransitive(a.lan.prefix, b.lan.prefix, c.lan.prefix);
  }

  datatype LansError = At(index: Index, error: LanError) | Overlap(i: nat, j: nat)

  // normalizeServiceLAN
  function Normalize(input: ServiceLanInput): Result<Entry, LanError> {
    match Resolve(input)
    case Ok(lan) => Ok(EntryOf(input, lan))
    case Err(error) => Err(error)
  }

  // The printed record of an accepted LAN reads back as the LAN's numbers.
  lemma RecordReadsBack(input: ServiceLanInput)
    requires Normalize(input).Ok?
    ensures Resolve(input).Ok?
    ensures var r, lan := Normalize(input).value.lan, Resolve(input).value;
      && r.name == input.name && r.subnetId == SubnetId(input) && r.leaseSecs == lan.leaseSecs
      && Netip.ParsePrefix(r.prefix) == Some(lan.block) && Netip.ParseAddr(r.lanIp) == Some(lan.router)
      && Netip.ParseAddr(r.rangeStart) == Some(lan.start) && Netip.ParseAddr(r.rangeStop) == Some(lan.stop)
  {
    var lan := Resolve(input).value;
    PrintedBack(lan);
    assert Normalize(input).value.lan == Record(input, lan);
  }

  lemma PrintedBack(lan: Lan)
    ensures Netip.ParsePrefix(Netip.PrintPrefix(lan.block)) == Some(lan.block)
    ensures Netip.ParseAddr(Netip.PrintAddr(lan.router)) == Some(lan.router)
    ensures Netip.ParseAddr(Netip.PrintAddr(lan.start)) == Some(lan.start)
    ensures Netip.ParseAddr(Netip.PrintAddr(lan.stop)) == Some(lan.stop)
  {
    Netip.ParsePrintPrefix(lan.block);
    Netip.ParsePrintAddr(lan.router);
    Netip.ParsePrintAddr(lan.start);
    Netip.ParsePrintAddr(lan.stop);
  }

  ghost predicate AcceptedBelow(inputs: seq<ServiceLanInput>, n: nat)
    requires n <= |inputs|
  {
    forall i | 0 <= i < n :: Normalize(inputs[i]).Ok?
  }

  ghost predicate AllAccepted(inputs: seq<ServiceLanInput>) {
    AcceptedBelow(inputs, |inputs|)
  }

  function Entries(inputs: seq<ServiceLanInput>): seq<Entry>
    requires AllAccepted(inputs)
  {
    seq(|inputs|, i requires 0 <= i < |inputs| => Normalize(inputs[i]).value)
  }

  function Records(entries: seq<Entry>): seq<ServiceLan> {
    seq(|entries|, i requires 0 <= i < |entries| => entries[i].lan)
  }

  ghost predicate IsOrdering(order: seq<Entry>, inputs: seq<ServiceLanInput>)
    requires AllAccepted(inputs)
  {
    multiset(order) == multiset(Entries(inputs)) && Sorting.Sorted(LanLess, order)
  }

  ghost predicate IsResult(lans: seq<ServiceLan>, inputs: seq<ServiceLanInput>) {
    && AllAccepted(inputs) && Disjoint(Entries(inputs))
    && exists order :: IsOrdering(order, inputs) && lans == Records(order)
  }

  ghost predicate Outcome(r: Result<seq<ServiceLan>, LansError>, inputs: seq<ServiceLanInput>) {
    match r
    case Ok(lans) => IsResult(lans, inputs)
    case Err(At(index, error)) =>
      exists i: nat ::
        i < |inputs| && AcceptedBelow(inputs, i) && inputs[i].index == index && Normalize(inputs[i]) == Err(error)
    case Err(Overlap(i, j)) =>
      && AllAccepted(inputs) && i < j < |inputs|
      && Ipv4.Intersect(Entries(inputs)[i].block, Entries(inputs)[j].block)
  }

  lemma EntriesMasked(inputs: seq<ServiceLanInput>)
    requires AllAccepted(inputs)
    ensures AllMasked(Entries(inputs))
  {
    forall i | 0 <= i < |inputs|
      ensures Entries(inputs)[i].block.Masked() == Entries(inputs)[i].block
    {
      ResolveExact(inputs[i]);
    }
  }

  // The first loop of normalizeServiceLANs; normalize is normalizeServiceLAN.
  method NormalizeAll(inputs: seq<ServiceLanInput>, normalize: ServiceLanInput -> Result<Entry, LanError>)
    returns (entries: seq<Entry>, failed: Option<(nat, LanError)>)
    ensures failed.None?
      ==> |entries| == |inputs| && forall k | 0 <= k < |inputs| :: normalize(inputs[k]) == Ok(entries[k])
    ensures failed.Some? ==>
      var (i, error) := failed.value;
      && i < |inputs| && normalize(inputs[i]) == Err(error)
      && forall k | 0 <= k < i :: normalize(inputs[k]).Ok?
  {
    entries := [];
    for i := 0 to |inputs|
      invariant |entries| == i && forall k | 0 <= k < i :: normalize(inputs[k]) == Ok(entries[k])
    {
      var entry := normalize(inputs[i]);
      if entry.Err? {
        return entries, Some((i, entry.error));
      }
      entries := entries + [entry.value];
    }
    return entries, None;
  }

  // normalizeServiceLANs: it succeeds exactly if every LAN is accepted by itself and
  // no two blocks share an address.
  method NormalizeServiceLans(inputs: seq<ServiceLanInput>) returns (r: Result<seq<ServiceLan>, LansError>)
    ensures Outcome(r, inputs)
    ensures r.Ok? <==> AllAccepted(inputs) && Disjoint(Entries(inputs))
  {
    var entries, failed := NormalizeAll(inputs, Normalize);
    if failed.Some? {
      var (i, error) := failed.value;
      return Err(At(inputs[i].index, error));
    }
    assert entries == Entries(inputs);
    EntriesMasked(inputs);
    var overlap := FindOverlap(entries);
    if overlap.Some? {
      return Err(Overlap(overlap.value.0, overlap.value.1));
    }
    LanLessOrder();
    var order := Sorting.Sort(entries, LanLess);
    var out: seq<ServiceLan> := [];
    for i := 0 to |order|
      invariant out == Records(order[..i])
    {
      out := out + [order[i].lan];
    }
    assert order[..|order|] == order;
    assert IsOrdering(order, inputs);
    return Ok(out);
  }

  // ---- the order is canonical ----

  // Two LANs of an accepted list never tie: their blocks, and so the texts of their
  // blocks, differ.
  lemma LanLessTotal(inputs: seq<ServiceLanInput>)
    requires AllAccepted(inputs) && Disjoint(Entries(inputs))
    ensures Sorting.TotalOn(LanLess, Entries(inputs))
  {
    forall i, j | 0 <= i < |inputs| && 0 <= j < |inputs| && i != j
      ensures Entries(inputs)[i].lan.prefix != Entries(inputs)[j].lan.prefix
    {
      BlocksDiffer(inputs, i, j);
    }
    TotalByText(Entries(inputs));
  }

  lemma TotalByText(entries: seq<Entry>)
    requires forall i, j | 0 <= i < |entries| && 0 <= j < |entries| && i != j ::
      entries[i].lan.prefix != entries[j].lan.prefix
    ensures Sorting.TotalOn(LanLess, entries)
  {
    forall x, y | x in entries && y in entries && x != y
      ensures LanLess(x, y) || LanLess(y, x)
    {
      var i :| 0 <= i < |entries| && entries[i] == x;
      var j :| 0 <= j < |entries| && entries[j] == y;
      PrefixTextDecides(x, y);
    }
  }

  lemma DisjointPair(entries: seq<Entry>, i: nat, j: nat)
    requires Disjoint(entries) && i < |entries| && j < |entries| && i != j
    ensures !Ipv4.Intersect(entries[i].block, entries[j].block)
  {
    if j < i {
      assert !Ipv4.Intersect(entries[j].block, entries[i].block);
    }
  }

  lemma BlocksDiffer(inputs: seq<ServiceLanInput>, i: nat, j: nat)
    requires AllAccepted(inputs) && Disjoint(Entries(inputs)) && i < |inputs| && j < |inputs| && i != j
    ensures Entries(inputs)[i].lan.prefix != Entries(inputs)[j].lan.prefix
  {
    EntriesMasked(inputs);
    DisjointPair(Entries(inputs), i, j);
    BlockTextsDiffer(Entries(inputs)[i].block, Entries(inputs)[j].block);
  }

  lemma PrefixTextDecides(x: Entry, y: Entry)
    requires x.lan.prefix != y.lan.prefix
    ensures LanLess(x, y) || LanLess(y, x)
  {
    Text.LessTotal(x.lan.prefix, y.lan.prefix);
    Text.LessTotal(x.lan.name, y.lan.name);
  }

  lemma BlockTextsDiffer(p: Netip.Prefix, q: Netip.Prefix)
    requires p.Masked() == p && !Ipv4.Intersect(p, q)
    ensures Netip.PrintPrefix(p) != Netip.PrintPrefix(q)
  {
    assert Ipv4.InBlock(p, p.addr);
    Netip.ParsePrintPrefix(p);
    Netip.ParsePrintPrefix(q);
  }

  // Any correct sort gives the same list.
  lemma OrderUnique(a: seq<ServiceLan>, b: seq<ServiceLan>, inputs: seq<ServiceLanInput>)
    requires IsResult(a, inputs) && IsResult(b, inputs)
    ensures a == b
  {
    var x :| IsOrdering(x, inputs) && a == Records(x);
    var y :| IsOrdering(y, inputs) && b == Records(y);
    LanLessTotal(inputs);
    Sorting.SameElements(x, Entries(inputs));
    Sorting.SortUnique(LanLess, x, y);
  }

  // ---- the pools are safe ----

  ghost predicate InPool(lan: Lan, a: int) {
    lan.start <= a <= lan.stop
  }

  // An address that a LAN keeps for itself.
  ghost predicate Reserved(lan: Lan, a: Netip.Addr) {
    a == lan.router || a == lan.block.addr || a == Ipv4.Broadcast(lan.block)
  }

  function Lans(inputs: seq<ServiceLanInput>): seq<Lan>
    requires AllAccepted(inputs)
  {
    seq(|inputs|, i requires 0 <= i < |inputs| => assert Normalize(inputs[i]).Ok?; Resolve(inputs[i]).value)
  }

  lemma PoolInBlock(lan: Lan, a: Netip.Addr)
    requires Safe(lan) && InPool(lan, a)
    ensures Ipv4.InBlock(lan.block, a) && !Reserved(lan, a) && a > lan.block.addr
  {
    assert Free(lan.block, lan.router, a);
  }

  lemma ReservedInBlock(lan: Lan, a: Netip.Addr)
    requires Safe(lan) && Reserved(lan, a)
    ensures Ipv4.InBlock(lan.block, a)
  {
    Ipv4.BroadcastIsLast(lan.block);
    Ipv4.ContainsIsInBlock(lan.block, lan.router);
  }

  // In an accepted list no address is in two pools, and no pool contains a router, a
  // network or a broadcast address of any LAN.
  lemma PoolsSafe(inputs: seq<ServiceLanInput>, i: nat, j: nat, a: Netip.Addr)
    requires AllAccepted(inputs) && Disjoint(Entries(inputs)) && i < |inputs| && j < |inputs|
    requires InPool(Lans(inputs)[i], a)
    ensures i != j ==> !InPool(Lans(inputs)[j], a)
    ensures !Reserved(Lans(inputs)[j], a)
  {
    var left, right := Lans(inputs)[i], Lans(inputs)[j];
    ResolveExact(inputs[i]);
    ResolveExact(inputs[j]);
    PoolInBlock(left, a);
    if i != j {
      DisjointPair(Entries(inputs), i, j);
      if InPool(right, a) {
        PoolInBlock(right, a);
      } else if Reserved(right, a) {
        ReservedInBlock(right, a);
      }
    }
  }

  function PoolSizes(lans: seq<Lan>): int {
    if lans == [] then 0
    else PoolSizes(lans[..|lans| - 1]) + (lans[|lans| - 1].stop - lans[|lans| - 1].start + 1)
  }

  predicate Between(lo: int, a: int, hi: int) {
    lo <= a < hi
  }

  ghost function Interval(lo: int, hi: int): set<int> {
    set a | lo <= a < hi && Between(lo, a, hi)
  }

  lemma {:induction false} IntervalSize(lo: int, hi: int)
    requires lo <= hi
    ensures |Interval(lo, hi)| == hi - lo
    decreases hi - lo
  {
    if lo < hi {
      IntervalSize(lo, hi - 1);
      assert Interval(lo, hi) == Interval(lo, hi - 1) + {hi - 1};
    }
  }

  // No address is in two pools.
  ghost predicate Apart(lans: seq<Lan>) {
    forall i, j, a: int | 0 <= i < j < |lans| :: !(InPool(lans[i], a) && InPool(lans[j], a))
  }

  // The addresses of all pools.
  ghost function Pooled(lans: seq<Lan>): set<int> {
    if lans == [] then {}
    else
      var last := lans[|lans| - 1];
      Pooled(lans[..|lans| - 1]) + Interval(last.start, last.stop + 1)
  }

  lemma {:induction false} PooledMeans(lans: seq<Lan>, a: int)
    ensures a in Pooled(lans) <==> exists i :: 0 <= i < |lans| && InPool(lans[i], a)
  {
    if lans != [] {
      var n := |lans| - 1;
      PooledMeans(lans[..n], a);
      assert a in Interval(lans[n].start, lans[n].stop + 1) <==> InPool(lans[n], a);
      assert forall i | 0 <= i < n :: lans[..n][i] == lans[i];
    }
  }

  lemma PoolsApart(lans: seq<Lan>)
    requires Apart(lans) && lans != []
    ensures var n := |lans| - 1; Pooled(lans[..n]) * Interval(lans[n].start, lans[n].stop + 1) == {}
  {
    var n := |lans| - 1;
    forall a | a in Pooled(lans[..n])
      ensures a !in Interval(lans[n].start, lans[n].stop + 1)
    {
      PooledMeans(lans[..n], a);
      var i :| 0 <= i < n && InPool(lans[..n][i], a);
      assert lans[..n][i] == lans[i];
      assert !(InPool(lans[i], a) && InPool(lans[n], a));
    }
  }

  lemma {:induction false} PoolSizesCount(lans: seq<Lan>)
    requires Apart(lans) && forall i | 0 <= i < |lans| :: lans[i].start <= lans[i].stop
    ensures PoolSizes(lans) == |Pooled(lans)|
  {
    if lans != [] {
      var n := |lans| - 1;
      assert forall i | 0 <= i < n :: lans[..n][i] == lans[i];
      PoolSizesCount(lans[..n]);
      IntervalSize(lans[n].start, lans[n].stop + 1);
      PoolsApart(lans);
    }
  }

  lemma BoundedPools(lans: seq<Lan>)
    requires Apart(lans) && forall i | 0 <= i < |lans| :: 0 < lans[i].start <= lans[i].stop
    ensures PoolSizes(lans) < Netip.TWO32
  {
    PoolSizesCount(lans);
    IntervalSize(1, Netip.TWO32);
    forall a | a in Pooled(lans)
      ensures a in Interval(1, Netip.TWO32)
    {
      PooledMeans(lans, a);
    }
    SubsetSize(Pooled(lans), Interval(1, Netip.TWO32));
  }

  lemma SubsetSize(a: set<int>, b: set<int>)
    requires a <= b
    ensures |a| <= |b|
  {
    assert b == a + (b - a);
  }

  lemma LansApart(inputs: seq<ServiceLanInput>)
    requires AllAccepted(inputs) && Disjoint(Entries(inputs))
    ensures Apart(Lans(inputs))
  {
    var lans := Lans(inputs);
    forall i, j, a: int | 0 <= i < j < |lans|
      ensures !(InPool(lans[i], a) && InPool(lans[j], a))
    {
      if InPool(lans[i], a) {
        PoolsSafe(inputs, i, j, a);
      }
    }
  }

  // All pools together have less than 2^32 addresses.
  lemma PoolsBounded(inputs: seq<ServiceLanInput>)
    requires AllAccepted(inputs) && Disjoint(Entries(inputs))
    ensures PoolSizes(Lans(inputs)) < Netip.TWO32
  {
    LansApart(inputs);
    forall i | 0 <= i < |inputs|
      ensures 0 < Lans(inputs)[i].start <= Lans(inputs)[i].stop
    {
      ResolveExact(inputs[i]);
      PoolInBlock(Lans(inputs)[i], Lans(inputs)[i].start);
    }
    BoundedPools(Lans(inputs));
  }

  // ---- services.ssh ----

  datatype Ssh = Ssh(enabled: bool, port: int)

  // normalizeSSHPort, given the raw value of services.ssh.port
  function NormalizeSsh(raw: RawNumber): Option<Ssh> {
    match raw
    case Absent => Some(Ssh(false, 0))
    case Number(port) => if 1 <= port <= 65535 then Some(Ssh(true, port)) else None
    case _ => None
  }
}
