// strconv.Itoa and strconv.Atoi on a 64-bit platform.
module Decimal {
  import opened Wrappers

  const MIN_INT := -0x8000_0000_0000_0000
  const MAX_INT := 0x7FFF_FFFF_FFFF_FFFF

  type Int64 = x: int | MIN_INT <= x <= MAX_INT

  predicate IsDigit(c: char) {
    '0' <= c <= '9'
  }

  predicate AllDigits(s: string) {
    forall i | 0 <= i < |s| :: IsDigit(s[i])
  }

  function Digits(n: nat): (s: string)
    ensures s != [] && AllDigits(s)
    ensures |s| > 1 ==> s[0] != '0'
    ensures n == 0 ==> s == "0"
    ensures n > 0 ==> s[0] != '0'
  {
    var last := [('0' as int + n % 10) as char];
    if n < 10 then last else Digits(n / 10) + last
  }

  function Itoa(n: int): string {
    if n < 0 then "-" + Digits(-n) else Digits(n)
  }

  function Value(s: string): nat
    requires AllDigits(s)
  {
    if s == [] then 0
    else 10 * Value(s[..|s| - 1]) + (s[|s| - 1] as int - '0' as int)
  }

  function Signed(negative: bool, v: int): int {
    if negative then -v else v
  }

  // strconv.Atoi: an optional sign, at least one digit, the value must fit.
  function Atoi(s: string): Option<int> {
    var body := if s != [] && (s[0] == '-' || s[0] == '+') then s[1..] else s;
    if body == [] || !AllDigits(body) then None
    else
      var v := Signed(s[0] == '-', Value(body));
      if MIN_INT <= v <= MAX_INT then Some(v) else None
  }

  lemma {:induction false} ValueDigits(n: nat)
    ensures Value(Digits(n)) == n
  {
    if n >= 10 {
      ValueDigits(n / 10);
      var s := Digits(n);
      assert s[..|s| - 1] == Digits(n / 10);
    }
  }

  // Parsing undoes printing on every 64-bit integer.
  lemma AtoiItoa(n: int)
    requires MIN_INT <= n <= MAX_INT
    ensures Atoi(Itoa(n)) == Some(n)
  {
    var m := if n < 0 then -n else n;
    var d := Digits(m);
    ValueDigits(m);
    assert IsDigit(d[0]);
    if n < 0 {
      assert ("-" + d)[1..] == d;
    }
  }

  // ---- what numerals mean ----

  function Pow10(n: nat): nat {
    if n == 0 then 1 else 10 * Pow10(n - 1)
  }

  // The left digits weigh more.
  lemma {:induction false} ValueConcat(a: string, b: string)
    requires AllDigits(a) && AllDigits(b)
    ensures Value(a + b) == Value(a) * Pow10(|b|) + Value(b)
  {
    if b == [] {
      assert a + b == a;
    } else {
      var n := |b| - 1;
      ValueConcat(a, b[..n]);
      ValueAppend(b[..n], b[n]);
      ValueAppend(a + b[..n], b[n]);
      assert b == b[..n] + [b[n]] && a + b == (a + b[..n]) + [b[n]];
      TenTimes(Value(a), Pow10(n));
    }
  }

  lemma ValueAppend(s: string, c: char)
    requires AllDigits(s) && IsDigit(c)
    ensures Value(s + [c]) == 10 * Value(s) + (c as int - '0' as int)
  {
    assert (s + [c])[..|s|] == s;
  }

  lemma TenTimes(v: nat, p: nat)
    ensures 10 * (v * p) == v * (10 * p)
  {
  }

  function Zeros(n: nat): string {
    seq(n, i => '0')
  }

  lemma {:induction false} ZerosValue(n: nat)
    ensures AllDigits(Zeros(n)) && Value(Zeros(n)) == 0
  {
    if n > 0 {
      ZerosValue(n - 1);
      assert Zeros(n)[..n - 1] == Zeros(n - 1);
    }
  }

  // Digits without leading zeros are the printed number.
  lemma {:induction false} DigitsOfValue(s: string)
    requires s != [] && AllDigits(s) && (|s| > 1 ==> s[0] != '0')
    ensures Digits(Value(s)) == s
    ensures |s| > 1 ==> Value(s) >= 10
  {
    var n := |s| - 1;
    if n > 0 {
      DigitsOfValue(s[..n]);
      if n == 1 {
        assert s[..n][..0] == [];
        assert Value(s[..n]) == s[0] as int - '0' as int;
      }
      assert s == s[..n] + [s[n]];
    } else {
      assert s[..0] == [];
    }
  }

  // Any digits are zeros and then the printed number.
  lemma {:induction false} AnyDigits(s: string) returns (k: nat)
    requires s != [] && AllDigits(s)
    ensures s == Zeros(k) + Digits(Value(s))
  {
    if |s| == 1 || s[0] != '0' {
      k := 0;
      DigitsOfValue(s);
      assert Zeros(0) + s == s;
    } else {
      var j := AnyDigits(s[1..]);
      k := j + 1;
      LeadingZero(s[1..]);
      assert s == ['0'] + s[1..];
      assert Zeros(k) == ['0'] + Zeros(j);
      assert ['0'] + (Zeros(j) + Digits(Value(s))) == ['0'] + Zeros(j) + Digits(Value(s));
    }
  }

  lemma LeadingZero(s: string)
    requires AllDigits(s)
    ensures Value(['0'] + s) == Value(s)
  {
    ValueConcat(['0'], s);
    ValueAppend([], '0');
    assert [] + ['0'] == ['0'];
  }

  // A numeral of v: a sign, any zeros, and the printed absolute value.
  ghost predicate Numeral(s: string, v: int, sign: string, k: nat) {
    && s == sign + (Zeros(k) + Digits(if v < 0 then -v else v))
    && (sign == "-" || sign == "+" || sign == "") && (v < 0 ==> sign == "-") && (v > 0 ==> sign != "-")
  }

  lemma NumeralReads(s: string, v: int, sign: string, k: nat)
    requires Numeral(s, v, sign, k) && MIN_INT <= v <= MAX_INT
    ensures Atoi(s) == Some(v)
  {
    var m := if v < 0 then -v else v;
    PaddedValue(k, m);
    BodyOf(s, sign, Zeros(k) + Digits(m));
  }

  lemma PaddedValue(k: nat, m: nat)
    ensures AllDigits(Zeros(k) + Digits(m)) && Value(Zeros(k) + Digits(m)) == m
  {
    ValueDigits(m);
    ZerosValue(k);
    ValueConcat(Zeros(k), Digits(m));
  }

  lemma BodyOf(s: string, sign: string, body: string)
    requires s == sign + body && (sign == "-" || sign == "+" || sign == "") && body != [] && AllDigits(body)
    ensures (if s != [] && (s[0] == '-' || s[0] == '+') then s[1..] else s) == body
    ensures s[0] == '-' <==> sign == "-"
  {
    assert IsDigit(body[0]);
  }

  lemma ReadsNumeral(s: string, v: int) returns (sign: string, k: nat)
    requires Atoi(s) == Some(v)
    ensures Numeral(s, v, sign, k)
  {
    var body := if s[0] == '-' || s[0] == '+' then s[1..] else s;
    sign := if s[0] == '-' || s[0] == '+' then [s[0]] else "";
    k := AnyDigits(body);
    assert s == sign + body;
  }

  // Exactly the numerals of a 64-bit number are read, as that number.
  lemma AtoiExactly(s: string, v: int)
    ensures Atoi(s) == Some(v) <==> MIN_INT <= v <= MAX_INT && exists sign, k :: Numeral(s, v, sign, k)
  {
    if Atoi(s) == Some(v) {
      var sign, k := ReadsNumeral(s, v);
    }
    if sign, k :| Numeral(s, v, sign, k) && MIN_INT <= v <= MAX_INT {
      NumeralReads(s, v, sign, k);
    }
  }

  // A number is printed as the shortest text that is read as it.
  lemma ItoaExactly(v: int)
    requires MIN_INT <= v <= MAX_INT
    ensures Atoi(Itoa(v)) == Some(v)
    ensures forall s | s != Itoa(v) && Atoi(s) == Some(v) :: |Itoa(v)| < |s|
  {
    AtoiItoa(v);
    forall s | s != Itoa(v) && Atoi(s) == Some(v)
      ensures |Itoa(v)| < |s|
    {
      Longer(s, v);
    }
  }

  lemma Longer(s: string, v: int)
    requires Atoi(s) == Some(v) && s != Itoa(v)
    ensures |Itoa(v)| < |s|
  {
    var sign, k := ReadsNumeral(s, v);
    var digits := Digits(if v < 0 then -v else v);
    if k == 0 {
      assert Zeros(k) + digits == digits;
      assert v >= 0 && sign == "" ==> s == digits;
    }
  }
}
