// What is reported of a service LAN that is refused: the first check that fails, in the
// order name, subnet, lease time, first address, count, and the pool itself.
module LanErrors {
  import opened Wrappers
  import opened RenderData
  import opened ServiceLans
  import opened Lans
  import Decimal
  import Netip
  import Ipv4
  import Validate

  // ---- name and subnet ----

  lemma SubnetReads(subnet: string)
    ensures Validate.IsToken(subnet, true) && Netip.ParsePrefix(subnet).Some?
      <==> exists p :: subnet == Netip.PrintPrefix(p)
  {
    if Netip.ParsePrefix(subnet).Some? {
      Netip.PrefixExactly(subnet, Netip.ParsePrefix(subnet).value);
    }
    if p :| subnet == Netip.PrintPrefix(p) {
      SubnetToken(p);
    }
  }

  lemma RangeReason(router: Netip.Addr, block: Netip.Prefix, secs: int, first: int, count: int)
    ensures var r := Range(router, block, secs, first, count);
      r.Ok? || r.error in {StartOverflow, StopOverflow, OutsideSubnet, ReservedAddress}
  {
  }

  lemma FirstChecks(input: ServiceLanInput)
    ensures Resolve(input) == Err(BadName) <==> !Validate.IsToken(input.name, false)
    ensures Resolve(input) == Err(BadSubnet) <==>
      && Validate.IsToken(input.name, false)
      && !(Validate.IsToken(input.subnet, true) && Netip.ParsePrefix(input.subnet).Some?)
  {
    if Netip.ParsePrefix(input.subnet).Some? {
      var p := Netip.ParsePrefix(input.subnet).value;
      RangeReason(
        p.addr, p.Masked(), LeaseTime(input.dhcp.leaseTime).GetOr(0), RequiredPositive(input.dhcp.leaseFirst).GetOr(0),
        RequiredPositive(input.dhcp.leaseCount).GetOr(0));
    }
  }

  // The name must be a token, and then the subnet a prefix as it is printed.
  lemma TextReason(input: ServiceLanInput)
    ensures Resolve(input) == Err(BadName) <==> !Validate.IsToken(input.name, false)
    ensures Resolve(input) == Err(BadSubnet)
      <==> Validate.IsToken(input.name, false) && forall p :: input.subnet != Netip.PrintPrefix(p)
  {
    FirstChecks(input);
    SubnetReads(input.subnet);
  }

  // ---- numbers ----

  lemma NumberChecks(input: ServiceLanInput, p: Netip.Prefix)
    requires Validate.IsToken(input.name, false) && Validate.IsToken(input.subnet, true)
    requires Netip.ParsePrefix(input.subnet) == Some(p)
    ensures var secs, first, count :=
        LeaseTime(input.dhcp.leaseTime), RequiredPositive(input.dhcp.leaseFirst),
        RequiredPositive(input.dhcp.leaseCount);
      && (Resolve(input) == Err(BadLeaseTime) <==> secs.None?)
      && (Resolve(input) == Err(BadLeaseFirst) <==> secs.Some? && first.None?)
      && (Resolve(input) == Err(BadLeaseCount) <==> secs.Some? && first.Some? && count.None?)
      && (secs.Some? && first.Some? && count.Some? ==>
            Resolve(input) == Range(p.addr, p.Masked(), secs.value, first.value, count.value))
  {
    RangeReason(
      p.addr, p.Masked(), LeaseTime(input.dhcp.leaseTime).GetOr(0), RequiredPositive(input.dhcp.leaseFirst).GetOr(0),
      RequiredPositive(input.dhcp.leaseCount).GetOr(0));
  }

  ghost predicate Leases(raw: RawNumber) {
    exists secs :: Lasts(raw, secs)
  }

  ghost predicate Counted(raw: RawNumber) {
    exists n :: Counts(raw, n)
  }

  lemma LeasesExactly(raw: RawNumber)
    ensures LeaseTime(raw).Some? <==> Leases(raw)
  {
    if LeaseTime(raw).Some? {
      LeaseExactly(raw, LeaseTime(raw).value);
    }
    if secs :| Lasts(raw, secs) {
      LeaseExactly(raw, secs);
    }
  }

  lemma CountedExactly(raw: RawNumber)
    ensures RequiredPositive(raw).Some? <==> Counted(raw)
  {
    if RequiredPositive(raw).Some? {
      RequiredExactly(raw, RequiredPositive(raw).value);
    }
    if n :| Counts(raw, n) {
      RequiredExactly(raw, n);
    }
  }

  // Then a lease time, a first address and a count must be given.
  lemma NumberReason(input: ServiceLanInput, p: Netip.Prefix)
    requires Validate.IsToken(input.name, false) && input.subnet == Netip.PrintPrefix(p)
    ensures var time, first, count := input.dhcp.leaseTime, input.dhcp.leaseFirst, input.dhcp.leaseCount;
      && (Resolve(input) == Err(BadLeaseTime) <==> !Leases(time))
      && (Resolve(input) == Err(BadLeaseFirst) <==> Leases(time) && !Counted(first))
      && (Resolve(input) == Err(BadLeaseCount) <==> Leases(time) && Counted(first) && !Counted(count))
  {
    SubnetToken(p);
    NumberChecks(input, p);
    LeasesExactly(input.dhcp.leaseTime);
    CountedExactly(input.dhcp.leaseFirst);
    CountedExactly(input.dhcp.leaseCount);
  }

  // ---- the pool ----

  lemma Overflows(router: Netip.Addr, block: Netip.Prefix, secs: int, first: int, count: int)
    requires 1 <= first <= Decimal.MAX_INT && 1 <= count <= Decimal.MAX_INT
    ensures var r := Range(router, block, secs, first, count);
      && (r == Err(StartOverflow) <==> block.addr + first >= Netip.TWO32)
      && (r == Err(StopOverflow) <==> block.addr + first < Netip.TWO32 <= block.addr + first + count - 1)
  {
    Ipv4.AddExact(block.addr, first);
    if block.addr + first < Netip.TWO32 {
      Ipv4.AddExact(block.addr + first, count - 1);
    }
  }

  lemma Misses(
      router: Netip.Addr, block: Netip.Prefix, secs: int, first: int, count: int, start: Netip.Addr, stop: Netip.Addr)
    requires Ipv4.Add(block.addr, first) == Some(start) && Ipv4.Add(start, count - 1) == Some(stop)
    ensures var r := Range(router, block, secs, first, count);
      && (r == Err(OutsideSubnet) <==> !block.Contains(start) || !block.Contains(stop))
      && (r == Err(ReservedAddress) <==>
            block.Contains(start) && block.Contains(stop) && ReservedInRange(block, router, start, stop))
  {
  }

  lemma MissesExactly(router: Netip.Addr, block: Netip.Prefix, secs: int, first: int, count: int)
    requires block.Masked() == block && 1 <= first <= Decimal.MAX_INT && 1 <= count <= Decimal.MAX_INT
    requires block.addr + first + count - 1 < Netip.TWO32
    ensures var r, start, stop :=
        Range(router, block, secs, first, count), block.addr + first, block.addr + first + count - 1;
      && (r == Err(OutsideSubnet) <==> stop >= block.addr + block.Size())
      && (r == Err(ReservedAddress) <==>
            && stop < block.addr + block.Size()
            && (stop == block.addr + block.Size() - 1 || start <= router <= stop))
  {
    var start: Netip.Addr, stop: Netip.Addr := block.addr + first, block.addr + first + count - 1;
    Ipv4.AddExact(block.addr, first);
    Ipv4.AddExact(start, count - 1);
    Misses(router, block, secs, first, count, start, stop);
    FreeMeans(block, router, start);
    FreeMeans(block, router, stop);
    ReservedMeans(block, router, start, stop);
    Ipv4.BroadcastIsLast(block);
  }

  // And last its addresses must fit into 32 bits, first the lowest and then the highest,
  // lie in the block, and be neither its last one nor the router.
  lemma PoolReason(input: ServiceLanInput, p: Netip.Prefix, secs: int, first: int, count: int)
    requires Validate.IsToken(input.name, false) && input.subnet == Netip.PrintPrefix(p)
    requires Lasts(input.dhcp.leaseTime, secs)
    requires Counts(input.dhcp.leaseFirst, first) && Counts(input.dhcp.leaseCount, count)
    ensures var start, after := p.Masked().addr + first, p.Masked().addr + p.Size();
      var stop := start + count - 1;
      && (Resolve(input) == Err(StartOverflow) <==> start >= Netip.TWO32)
      && (Resolve(input) == Err(StopOverflow) <==> start < Netip.TWO32 <= stop)
      && (Resolve(input) == Err(OutsideSubnet) <==> after <= stop < Netip.TWO32)
      && (Resolve(input) == Err(ReservedAddress) <==>
            stop < after && stop < Netip.TWO32 && (stop == after - 1 || start <= p.addr <= stop))
  {
    SubnetToken(p);
    NumberChecks(input, p);
    LeaseExactly(input.dhcp.leaseTime, secs);
    RequiredExactly(input.dhcp.leaseFirst, first);
    RequiredExactly(input.dhcp.leaseCount, count);
    PositiveFits(input.dhcp.leaseFirst);
    PositiveFits(input.dhcp.leaseCount);
    RangeReasons(p, secs, first, count);
  }

  lemma RangeReasons(p: Netip.Prefix, secs: int, first: int, count: int)
    requires 1 <= first <= Decimal.MAX_INT && 1 <= count <= Decimal.MAX_INT
    ensures var r, start, after :=
        Range(p.addr, p.Masked(), secs, first, count), p.Masked().addr + first, p.Masked().addr + p.Size();
      var stop := start + count - 1;
      && (r == Err(StartOverflow) <==> start >= Netip.TWO32)
      && (r == Err(StopOverflow) <==> start < Netip.TWO32 <= stop)
      && (r == Err(OutsideSubnet) <==> after <= stop < Netip.TWO32)
      && (r == Err(ReservedAddress) <==>
            stop < after && stop < Netip.TWO32 && (stop == after - 1 || start <= p.addr <= stop))
  {
    Ipv4.ContainsIsInBlock(p, p.addr);
    Overflows(p.addr, p.Masked(), secs, first, count);
    if p.Masked().addr + first + count - 1 < Netip.TWO32 {
      MissesExactly(p.addr, p.Masked(), secs, first, count);
    }
  }
}
