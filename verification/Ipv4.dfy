// IPv4 block arithmetic of internal/normalize/service.go.
module Ipv4 {
  import opened Wrappers
  import opened Netip

  const TWO64 := 0x1_0000_0000_0000_0000

  // Bitwise or of two non-negative machine words.
  function BitOr(a: nat, b: nat): nat
    decreases a + b
  {
    if a == 0 && b == 0 then 0
    else (if a % 2 == 1 || b % 2 == 1 then 1 else 0) + 2 * BitOr(a / 2, b / 2)
  }

  // ipv4Add, with the 64-bit and 32-bit wrap-around of the machine written out.
  function Add(addr: Addr, offset: int): Option<Addr> {
    if offset < 0 then None
    else if (addr + offset % TWO64) % TWO64 > TWO32 - 1 then None
    else Some((addr + offset % TWO32) % TWO32)
  }

  // ipv4Broadcast
  function Broadcast(p: Prefix): nat {
    var hostBits := 32 - p.bits;
    var hostMask :=
      if hostBits == 32 then TWO32 - 1
      else if hostBits > 0 then Pow2(hostBits) - 1
      else 0;
    BitOr(p.Masked().addr, hostMask)
  }

  // The address set of a block.
  ghost predicate InBlock(p: Prefix, a: Addr) {
    p.Masked().addr <= a < p.Masked().addr + p.Size()
  }

  ghost predicate Intersect(p: Prefix, q: Prefix) {
    exists a: Addr :: InBlock(p, a) && InBlock(q, a)
  }

  // For the 64-bit offsets the callers pass, no wrap-around ever occurs: the
  // addition is the mathematical one, refused exactly when it leaves 32 bits.
  lemma AddExact(addr: Addr, offset: int)
    requires offset < 0x8000_0000_0000_0000
    ensures Add(addr, offset) ==
      if 0 <= offset && addr + offset < TWO32 then Some(addr + offset) else None
  {
  }

  lemma {:induction false} OrZero(a: nat)
    ensures BitOr(a, 0) == a
  {
    if a > 0 {
      OrZero(a / 2);
    }
  }

  lemma OrStep(a: nat, b: nat)
    ensures BitOr(2 * a, 2 * b + 1) == 1 + 2 * BitOr(a, b)
  {
    assert 2 * a / 2 == a && (2 * b + 1) / 2 == b;
  }

  // The low bits of a multiple of 2^h are free for an or.
  lemma {:induction false} OrAligned(k: nat, h: nat)
    ensures BitOr(k * Pow2(h), Pow2(h) - 1) == k * Pow2(h) + Pow2(h) - 1
  {
    if h == 0 {
      OrZero(k);
    } else {
      var a, b := k * Pow2(h - 1), Pow2(h - 1) - 1;
      assert k * Pow2(h) == 2 * a;
      OrAligned(k, h - 1);
      OrStep(a, b);
    }
  }

  lemma Pow2Of32()
    ensures Pow2(32) == TWO32
  {
    assert Pow2(8) == 256;
    Pow2Sum(8, 8);
    Pow2Sum(16, 16);
  }

  lemma {:induction false} Pow2Sum(a: nat, b: nat)
    ensures Pow2(a + b) == Pow2(a) * Pow2(b)
  {
    if a > 0 {
      Pow2Sum(a - 1, b);
      assert Pow2(a) * Pow2(b) == 2 * (Pow2(a - 1) * Pow2(b));
    }
  }

  // A block lies inside the 32-bit space and its last address is the broadcast
  // address that the bit operations compute.
  lemma BroadcastIsLast(p: Prefix)
    ensures Broadcast(p) == p.Masked().addr + p.Size() - 1
    ensures Broadcast(p) < TWO32
    ensures InBlock(p, Broadcast(p))
  {
    var k := p.addr / p.Size();
    PrefixArithmetic(p, p.addr);
    BroadcastIsOr(p, k);
    OrAligned(k, 32 - p.bits);
    BlockFits(p, k);
  }

  lemma BroadcastIsOr(p: Prefix, k: nat)
    requires p.Masked().addr == k * p.Size()
    ensures Broadcast(p) == BitOr(k * p.Size(), p.Size() - 1)
  {
    Pow2Of32();
  }

  lemma BlockFits(p: Prefix, k: nat)
    requires p.Size() >= 1 && k == p.addr / p.Size()
    ensures k * p.Size() + p.Size() <= TWO32
  {
    Pow2Of32();
    Pow2Sum(p.bits, 32 - p.bits);
    QuotientBelow(p.addr, p.Size());
    BelowNextMultiple(k, Pow2(p.bits), p.Size(), p.addr);
  }

  lemma QuotientBelow(x: nat, m: nat)
    requires m >= 1
    ensures x / m * m <= x
  {
    assert x == x / m * m + x % m;
  }

  lemma BelowNextMultiple(k: nat, n: nat, m: nat, x: nat)
    requires m >= 1 && k * m <= x < n * m
    ensures k * m + m <= n * m
  {
    assert k >= n ==> k * m >= n * m;
    assert k + 1 <= n ==> (k + 1) * m <= n * m;
  }

  lemma SameQuotient(k: nat, m: nat, a: nat)
    requires m >= 1
    ensures a / m == k <==> k * m <= a < k * m + m
  {
    assert a == a / m * m + a % m;
    if k * m <= a < k * m + m {
      QuotientUnique(a, m, k, a - k * m);
    }
  }

  // Having the same network bits means lying in the block.
  lemma ContainsIsInBlock(p: Prefix, a: Addr)
    ensures p.Contains(a) <==> InBlock(p, a)
    ensures p.Masked().Contains(a) <==> p.Contains(a)
    ensures p.Masked().Masked() == p.Masked()
  {
    var m, q := p.Size(), p.Masked();
    var k := p.addr / m;
    PrefixArithmetic(p, a);
    PrefixArithmetic(q, a);
    MultipleDivides(k, m);
    SameQuotient(k, m, a);
  }

  lemma Regroup(q: int, r: int, q': int, r': int, a: int, b: int)
    requires q == q' * b + r' && 0 <= r < a && 0 <= r' < b
    ensures q * a + r == q' * (a * b) + (r' * a + r)
    ensures 0 <= r' * a + r < a * b
  {
    assert q * a == (q' * b + r') * a == q' * b * a + r' * a;
    assert q' * b * a == q' * (a * b);
    RowInBlock(r, r', a, b);
  }

  lemma RowInBlock(r: int, r': int, a: int, b: int)
    requires 0 <= r < a && 0 <= r' < b
    ensures 0 <= r' * a + r < a * b
  {
    assert r' * a <= (b - 1) * a == a * b - a;
  }

  lemma DivideTwice(x: nat, a: nat, b: nat)
    requires a >= 1 && b >= 1
    ensures a * b >= 1 && x / (a * b) == x / a / b
  {
    var q, r := x / a, x % a;
    var q', r' := q / b, q % b;
    assert x == q * a + r && q == q' * b + r';
    Regroup(q, r, q', r', a, b);
    QuotientUnique(x, a * b, q', r' * a + r);
  }

  lemma CoarserQuotient(x: nat, y: nat, m: nat, d: nat)
    requires m >= 1 && d >= 1 && x / m == y / m
    ensures x / (m * d) == y / (m * d)
  {
    DivideTwice(x, m, d);
    DivideTwice(y, m, d);
  }

  // Addresses with the same network bits have the same bits in a coarser network.
  lemma CoarserBits(p: Prefix, q: Prefix, x: Addr, y: Addr)
    requires q.bits <= p.bits && x / p.Size() == y / p.Size()
    ensures x / q.Size() == y / q.Size()
  {
    var d := p.bits - q.bits;
    Pow2Sum(32 - p.bits, d);
    CoarserQuotient(x, y, p.Size(), Pow2(d));
  }

  // The finer of two intersecting blocks has its base inside the coarser one.
  lemma CoarserContains(p: Prefix, q: Prefix, a: Addr)
    requires q.bits <= p.bits && InBlock(p, a) && InBlock(q, a)
    ensures q.Contains(p.Masked().addr)
  {
    var base := p.Masked().addr;
    PrefixArithmetic(p, a);
    PrefixArithmetic(p, base);
    PrefixArithmetic(q, a);
    PrefixArithmetic(q, base);
    ContainsIsInBlock(p, a);
    ContainsIsInBlock(p, base);
    ContainsIsInBlock(q, a);
    CoarserBits(p, q, a, base);
  }

  // Two blocks share an address exactly when one contains the base of the other.
  lemma OverlapExact(p: Prefix, q: Prefix)
    ensures Intersect(p, q) <==>
      p.Contains(q.Masked().addr) || q.Contains(p.Masked().addr)
  {
    var pb, qb := p.Masked().addr, q.Masked().addr;
    ContainsIsInBlock(p, qb);
    ContainsIsInBlock(q, pb);
    ContainsIsInBlock(q, qb);
    ContainsIsInBlock(p, pb);
    if Intersect(p, q) {
      var a: Addr :| InBlock(p, a) && InBlock(q, a);
      if q.bits <= p.bits {
        CoarserContains(p, q, a);
      } else {
        CoarserContains(q, p, a);
      }
    }
  }
}
