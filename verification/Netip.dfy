// IPv4 addresses and prefixes: the part of net/netip that the renderer and the
// parser use, with its textual forms.
module Netip {
  import opened Wrappers
  import Text
  import Decimal

  const TWO32 := 0x1_0000_0000

  type Addr = a: int | 0 <= a < TWO32

  type Bits = b: int | 0 <= b <= 32

  function Pow2(n: nat): (r: nat)
    ensures r >= 1
  {
    if n == 0 then 1 else 2 * Pow2(n - 1)
  }

  // x >> n
  function ShiftRight(x: nat, n: nat): nat
    decreases n
  {
    if n == 0 then x else ShiftRight(x / 2, n - 1)
  }

  // The n low bits of x are cleared.
  function ClearLow(x: nat, n: nat): (r: nat)
    ensures r <= x
    decreases n
  {
    if n == 0 then x else 2 * ClearLow(x / 2, n - 1)
  }

  datatype Prefix = Prefix(addr: Addr, bits: Bits) {
    // Number of addresses in the block.
    function Size(): nat {
      Pow2(32 - bits)
    }

    // netip.Prefix.Masked: the host bits of the address are cleared.
    function Masked(): Prefix {
      Prefix(ClearLow(addr, 32 - bits), bits)
    }

    // netip.Prefix.Contains: same network bits.
    predicate Contains(a: Addr) {
      ShiftRight(a, 32 - bits) == ShiftRight(addr, 32 - bits)
    }
  }

  lemma {:induction false} ShiftIsQuotient(x: nat, n: nat)
    ensures ShiftRight(x, n) == x / Pow2(n)
  {
    if n > 0 {
      ShiftIsQuotient(x / 2, n - 1);
      HalvesFirst(x, Pow2(n - 1));
    }
  }

  lemma HalvesFirst(x: nat, m: nat)
    requires m >= 1
    ensures x / 2 / m == x / (2 * m)
  {
    var q, r := x / 2 / m, x / 2 % m;
    assert x / 2 == q * m + r;
    var d := x % 2;
    assert x == q * (2 * m) + (2 * r + d);
    QuotientUnique(x, 2 * m, q, 2 * r + d);
  }

  lemma {:induction false} ClearIsMultiple(x: nat, n: nat)
    ensures ClearLow(x, n) == x / Pow2(n) * Pow2(n)
  {
    if n > 0 {
      var m := Pow2(n - 1);
      ClearIsMultiple(x / 2, n - 1);
      HalvesFirst(x, m);
      TwiceProduct(x / 2 / m, m);
    }
  }

  lemma TwiceProduct(q: int, m: int)
    ensures 2 * (q * m) == q * (2 * m)
  {
  }

  // The same in terms of the block's size.
  lemma PrefixArithmetic(p: Prefix, a: Addr)
    ensures p.Size() >= 1
    ensures p.Masked().addr == p.addr / p.Size() * p.Size()
    ensures p.Contains(a) <==> a / p.Size() == p.addr / p.Size()
  {
    ClearIsMultiple(p.addr, 32 - p.bits);
    ShiftIsQuotient(p.addr, 32 - p.bits);
    ShiftIsQuotient(a, 32 - p.bits);
  }

  lemma MultipleDivides(k: nat, m: nat)
    requires m >= 1
    ensures k * m % m == 0 && k * m / m == k
  {
    assert k * m == m * k + 0;
    QuotientUnique(k * m, m, k, 0);
  }

  // Euclidean division is determined by its defining equation.
  lemma QuotientUnique(x: int, m: int, q: int, r: int)
    requires m >= 1 && x == q * m + r && 0 <= r < m
    ensures x / m == q && x % m == r
  {
    assert x == x / m * m + x % m;
    assert (x / m - q) * m == r - x % m;
    SmallMultiple(x / m - q, m);
  }

  lemma SmallMultiple(d: int, m: int)
    requires m >= 1 && -m < d * m < m
    ensures d == 0
  {
    assert d >= 1 ==> d * m >= m;
    assert d <= -1 ==> d * m <= -m;
  }

  // ---- textual form ----

  function Octets(a: Addr): seq<string> {
    [Decimal.Digits(a / 0x100_0000), Decimal.Digits(a / 0x1_0000 % 0x100),
     Decimal.Digits(a / 0x100 % 0x100), Decimal.Digits(a % 0x100)]
  }

  function PrintAddr(a: Addr): string {
    Text.Join(Octets(a), '.')
  }

  function PrintPrefix(p: Prefix): string {
    Text.Join([PrintAddr(p.addr), Decimal.Digits(p.bits)], '/')
  }

  // A decimal number without sign or leading zero, at most `max`.
  function ParseField(s: string, max: nat): Option<nat> {
    if s == [] || !Decimal.AllDigits(s) || (|s| > 1 && s[0] == '0') || Decimal.Value(s) > max then None
    else Some(Decimal.Value(s))
  }

  function ParseAddr(s: string): Option<Addr> {
    var f := Text.Split(s, '.');
    if |f| != 4 then None
    else
      match (ParseField(f[0], 255), ParseField(f[1], 255), ParseField(f[2], 255), ParseField(f[3], 255))
      case (Some(a), Some(b), Some(c), Some(d)) =>
        if a <= 255 && b <= 255 && c <= 255 && d <= 255
        then Some(a * 0x100_0000 + b * 0x1_0000 + c * 0x100 + d)
        else None
      case _ => None
  }

  // IPv4 only; every other family is refused by the callers anyway.
  function ParsePrefix(s: string): Option<Prefix> {
    var f := Text.Split(s, '/');
    if |f| != 2 then None
    else
      match (ParseAddr(f[0]), ParseField(f[1], 32))
      case (Some(a), Some(b)) => if b <= 32 then Some(Prefix(a, b)) else None
      case _ => None
  }

  lemma ParseFieldDigits(n: nat, max: nat)
    requires n <= max
    ensures ParseField(Decimal.Digits(n), max) == Some(n)
  {
    Decimal.ValueDigits(n);
  }

  lemma {:induction false} JoinCharacters(parts: seq<string>, sep: char)
    requires forall p | p in parts :: Decimal.AllDigits(p)
    ensures forall c | c in Text.Join(parts, sep) :: c == sep || Decimal.IsDigit(c)
  {
    if |parts| == 1 {
      assert parts[0] in parts;
    } else if |parts| > 1 {
      assert parts[0] in parts;
      JoinCharacters(parts[1..], sep);
    }
  }

  // Address text consists of digits and dots.
  lemma PrintAddrCharacters(a: Addr)
    ensures PrintAddr(a) != []
    ensures forall c | c in PrintAddr(a) :: c == '.' || Decimal.IsDigit(c)
  {
    JoinCharacters(Octets(a), '.');
    assert Text.Join(Octets(a), '.') == Octets(a)[0] + ['.'] + Text.Join(Octets(a)[1..], '.');
  }

  lemma PrintPrefixCharacters(p: Prefix)
    ensures PrintPrefix(p) != []
    ensures forall c | c in PrintPrefix(p) :: c == '.' || c == '/' || Decimal.IsDigit(c)
  {
    PrintAddrCharacters(p.addr);
    var bits := [Decimal.Digits(p.bits)];
    assert PrintPrefix(p) == PrintAddr(p.addr) + ['/'] + Text.Join(bits, '/');
    assert forall c | c in bits[0] :: Decimal.IsDigit(c);
  }

  lemma BytesOfWord(a: nat)
    ensures a == a / 0x100_0000 * 0x100_0000 + a / 0x1_0000 % 0x100 * 0x1_0000 + a / 0x100 % 0x100 * 0x100 + a % 0x100
  {
    assert a / 0x1_0000 / 0x100 == a / 0x100_0000;
    assert a / 0x100 / 0x100 == a / 0x1_0000;
  }

  lemma ParsePrintAddr(a: Addr)
    ensures ParseAddr(PrintAddr(a)) == Some(a)
  {
    Text.SplitJoin(Octets(a), '.');
    var (b3, b2, b1, b0) := (a / 0x100_0000, a / 0x1_0000 % 0x100, a / 0x100 % 0x100, a % 0x100);
    ParseFieldDigits(b3, 255);
    ParseFieldDigits(b2, 255);
    ParseFieldDigits(b1, 255);
    ParseFieldDigits(b0, 255);
    BytesOfWord(a);
  }

  lemma ParsePrintPrefix(p: Prefix)
    ensures ParsePrefix(PrintPrefix(p)) == Some(p)
  {
    PrintAddrCharacters(p.addr);
    Text.SplitJoin([PrintAddr(p.addr), Decimal.Digits(p.bits)], '/');
    ParsePrintAddr(p.addr);
    ParseFieldDigits(p.bits, 32);
  }

  // ---- exactly the printed forms are read ----

  lemma FieldExactly(s: string, max: nat, n: nat)
    ensures ParseField(s, max) == Some(n) <==> n <= max && s == Decimal.Digits(n)
  {
    if ParseField(s, max) == Some(n) {
      Decimal.DigitsOfValue(s);
    }
    if n <= max && s == Decimal.Digits(n) {
      ParseFieldDigits(n, max);
    }
  }

  // An address is the dotted decimal form of its four bytes, the highest first.
  lemma AddrText(b3: nat, b2: nat, b1: nat, b0: nat)
    requires b3 < 256 && b2 < 256 && b1 < 256 && b0 < 256
    ensures PrintAddr(b3 * 0x100_0000 + b2 * 0x1_0000 + b1 * 0x100 + b0)
      == Decimal.Itoa(b3) + "." + Decimal.Itoa(b2) + "." + Decimal.Itoa(b1) + "." + Decimal.Itoa(b0)
  {
    var a := b3 * 0x100_0000 + b2 * 0x1_0000 + b1 * 0x100 + b0;
    FourBytes(b3, b2, b1, b0);
    assert Octets(a) == [Decimal.Digits(b3), Decimal.Digits(b2), Decimal.Digits(b1), Decimal.Digits(b0)];
    FourFields(Decimal.Digits(b3), Decimal.Digits(b2), Decimal.Digits(b1), Decimal.Digits(b0));
  }

  lemma FourBytes(b3: nat, b2: nat, b1: nat, b0: nat)
    requires b3 < 256 && b2 < 256 && b1 < 256 && b0 < 256
    ensures var a := b3 * 0x100_0000 + b2 * 0x1_0000 + b1 * 0x100 + b0;
      a / 0x100_0000 == b3 && a / 0x1_0000 % 0x100 == b2 && a / 0x100 % 0x100 == b1 && a % 0x100 == b0
  {
    var a := b3 * 0x100_0000 + b2 * 0x1_0000 + b1 * 0x100 + b0;
    ByteBelow(b3 * 0x1_0000 + b2 * 0x100 + b1, b0);
    ByteBelow(b3 * 0x100 + b2, b1);
    ByteBelow(b3, b2);
    assert a / 0x100 / 0x100 == a / 0x1_0000 && a / 0x1_0000 / 0x100 == a / 0x100_0000;
  }

  lemma ByteBelow(high: nat, low: nat)
    requires low < 256
    ensures (high * 0x100 + low) / 0x100 == high && (high * 0x100 + low) % 0x100 == low
  {
  }

  lemma FourFields(a: string, b: string, c: string, d: string)
    ensures Text.Join([a, b, c, d], '.') == a + "." + b + "." + c + "." + d
  {
    assert Text.Join([d], '.') == d;
    assert Text.Join([c, d], '.') == c + ['.'] + d;
    assert [b, c, d][1..] == [c, d] && [a, b, c, d][1..] == [b, c, d] && [c, d][1..] == [d];
    assert Text.Join([b, c, d], '.') == b + ['.'] + (c + ['.'] + d);
    assert Text.Join([a, b, c, d], '.') == a + ['.'] + (b + ['.'] + (c + ['.'] + d));
  }

  // netip.ParseAddr reads no other spelling: no leading zeros, no shorter forms.
  lemma AddrExactly(s: string, a: Addr)
    ensures ParseAddr(s) == Some(a) <==> s == PrintAddr(a)
  {
    ParsePrintAddr(a);
    if ParseAddr(s) == Some(a) {
      var b3, b2, b1, b0 := AddrFields(s, a);
      AddrText(b3, b2, b1, b0);
    }
  }

  lemma AddrFields(s: string, a: Addr) returns (b3: nat, b2: nat, b1: nat, b0: nat)
    requires ParseAddr(s) == Some(a)
    ensures b3 < 256 && b2 < 256 && b1 < 256 && b0 < 256
    ensures a == b3 * 0x100_0000 + b2 * 0x1_0000 + b1 * 0x100 + b0
    ensures s == Decimal.Itoa(b3) + "." + Decimal.Itoa(b2) + "." + Decimal.Itoa(b1) + "." + Decimal.Itoa(b0)
  {
    var f := Text.Split(s, '.');
    b3, b2, b1, b0 := Decimal.Value(f[0]), Decimal.Value(f[1]), Decimal.Value(f[2]), Decimal.Value(f[3]);
    FieldExactly(f[0], 255, b3);
    FieldExactly(f[1], 255, b2);
    FieldExactly(f[2], 255, b1);
    FieldExactly(f[3], 255, b0);
    Text.JoinSplit(s, '.');
    FourFields(f[0], f[1], f[2], f[3]);
    assert f == [f[0], f[1], f[2], f[3]];
  }

  lemma PrefixText(p: Prefix)
    ensures PrintPrefix(p) == PrintAddr(p.addr) + "/" + Decimal.Itoa(p.bits)
  {
    TwoFields(PrintAddr(p.addr), Decimal.Digits(p.bits));
  }

  lemma TwoFields(a: string, b: string)
    ensures Text.Join([a, b], '/') == a + "/" + b
  {
    assert [a, b][1..] == [b];
    assert Text.Join([b], '/') == b;
  }

  // Nor does netip.ParsePrefix.
  lemma PrefixExactly(s: string, p: Prefix)
    ensures ParsePrefix(s) == Some(p) <==> s == PrintPrefix(p)
  {
    ParsePrintPrefix(p);
    if ParsePrefix(s) == Some(p) {
      var f := Text.Split(s, '/');
      AddrExactly(f[0], p.addr);
      FieldExactly(f[1], 32, p.bits);
      Text.JoinSplit(s, '/');
      assert f == [f[0], f[1]];
    }
  }
}
