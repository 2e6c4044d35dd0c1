// The string operations of Go's standard library that the renderer, the parser
// and the runner rely on.  A string is a sequence of Unicode scalar values.
module Text {
  // unicode.IsSpace: the Latin-1 spaces and the code points with property White_Space.
  predicate IsSpace(c: char) {
    || c == ' ' || '\t' <= c <= '\r' || c == '\U{85}' || c == '\U{A0}'
    || c == '\U{1680}' || '\U{2000}' <= c <= '\U{200A}' || c == '\U{2028}'
    || c == '\U{2029}' || c == '\U{202F}' || c == '\U{205F}' || c == '\U{3000}'
  }

  function TrimLeft(s: string): string {
    if s == [] || !IsSpace(s[0]) then s else TrimLeft(s[1..])
  }

  function TrimRight(s: string): string {
    if s == [] || !IsSpace(s[|s| - 1]) then s else TrimRight(s[..|s| - 1])
  }

  // strings.TrimSpace
  function TrimSpace(s: string): string {
    TrimRight(TrimLeft(s))
  }

  // A string that does not start or end with a space.
  predicate Trimmed(s: string) {
    s == [] || (!IsSpace(s[0]) && !IsSpace(s[|s| - 1]))
  }

  // A string already trimmed is left alone.
  lemma TrimSpaceFixed(s: string)
    requires Trimmed(s)
    ensures TrimSpace(s) == s
  {
  }

  lemma {:induction false} TrimLeftShape(s: string)
    ensures var r := TrimLeft(s); (r == [] || !IsSpace(r[0])) && forall c | c in r :: c in s
  {
    if s != [] && IsSpace(s[0]) {
      TrimLeftShape(s[1..]);
    }
  }

  lemma {:induction false} TrimRightShape(s: string)
    ensures var r := TrimRight(s); (r == [] || !IsSpace(r[|r| - 1])) && r <= s
  {
    if s != [] && IsSpace(s[|s| - 1]) {
      TrimRightShape(s[..|s| - 1]);
    }
  }

  // Trimming leaves a trimmed string of characters of the original.
  lemma TrimSpaceShape(s: string)
    ensures Trimmed(TrimSpace(s)) && forall c | c in TrimSpace(s) :: c in s
  {
    TrimLeftShape(s);
    TrimRightShape(TrimLeft(s));
  }

  // Trimming leaves something of a string that starts with something else than a space.
  lemma TrimSpaceNonEmpty(s: string)
    requires s != [] && !IsSpace(s[0])
    ensures TrimSpace(s) != []
  {
    TrimRightNonEmpty(s);
  }

  lemma {:induction false} TrimRightNonEmpty(s: string)
    requires s != [] && !IsSpace(s[0])
    ensures TrimRight(s) != []
  {
    if IsSpace(s[|s| - 1]) {
      TrimRightNonEmpty(s[..|s| - 1]);
    }
  }

  // strings.ContainsAny
  predicate ContainsAny(s: string, chars: string) {
    exists i | 0 <= i < |s| :: s[i] in chars
  }

  // strings.Contains
  predicate Contains(s: string, sub: string) {
    sub <= s || (s != [] && Contains(s[1..], sub))
  }

  // unicode.ToLower as far as it can produce ASCII: besides A-Z, two letters
  // (capital I with dot above, Kelvin sign) have an ASCII lower case.
  function LowerChar(c: char): char {
    if 'A' <= c <= 'Z' then ((c as int) + 32) as char
    else if c == '\U{130}' then 'i'
    else if c == '\U{212A}' then 'k'
    else c
  }

  function ToLower(s: string): string {
    seq(|s|, i requires 0 <= i < |s| => LowerChar(s[i]))
  }

  // strings.Split with a one-character separator
  function Split(s: string, sep: char): (parts: seq<string>)
    ensures |parts| >= 1
    ensures forall p | p in parts :: sep !in p
  {
    if s == [] then [[]]
    else
      var rest := Split(s[1..], sep);
      if s[0] == sep then [[]] + rest
      else [[s[0]] + rest[0]] + rest[1..]
  }

  // strings.Join with a one-character separator
  function Join(parts: seq<string>, sep: char): string {
    if parts == [] then []
    else if |parts| == 1 then parts[0]
    else parts[0] + [sep] + Join(parts[1..], sep)
  }

  lemma {:induction false} SplitPiece(p: string, s: string, sep: char)
    requires sep !in p
    ensures Split(p + s, sep) == [p + Split(s, sep)[0]] + Split(s, sep)[1..]
  {
    if p == [] {
      assert p + s == s;
      assert p + Split(s, sep)[0] == Split(s, sep)[0];
    } else {
      SplitPiece(p[1..], s, sep);
      SplitMore(p[0], p[1..] + s, sep);
      assert [p[0]] + (p[1..] + s) == p + s;
      assert [p[0]] + (p[1..] + Split(s, sep)[0]) == p + Split(s, sep)[0];
    }
  }

  lemma SplitMore(c: char, s: string, sep: char)
    requires c != sep
    ensures Split([c] + s, sep) == [[c] + Split(s, sep)[0]] + Split(s, sep)[1..]
  {
    assert ([c] + s)[1..] == s;
  }

  // Splitting undoes joining when no part contains the separator.
  lemma {:induction false} SplitJoin(parts: seq<string>, sep: char)
    requires parts != []
    requires forall p | p in parts :: sep !in p
    ensures Split(Join(parts, sep), sep) == parts
  {
    if |parts| == 1 {
      SplitPiece(parts[0], [], sep);
      assert parts[0] + [] == parts[0];
    } else {
      var tail := [sep] + Join(parts[1..], sep);
      SplitJoin(parts[1..], sep);
      SplitPiece(parts[0], tail, sep);
      assert tail[1..] == Join(parts[1..], sep);
      assert parts[0] + [sep] + Join(parts[1..], sep) == parts[0] + tail;
      assert Split(tail, sep) == [[]] + parts[1..];
      assert parts[0] + [] == parts[0];
    }
  }

  lemma {:induction false} JoinAppend(parts: seq<string>, last: string, sep: char)
    requires parts != []
    ensures Join(parts + [last], sep) == Join(parts, sep) + [sep] + last
  {
    if |parts| == 1 {
      assert (parts + [last])[1..] == [last];
    } else {
      JoinAppend(parts[1..], last, sep);
      assert (parts + [last])[1..] == parts[1..] + [last];
    }
  }

  // Joining undoes splitting, always.
  lemma {:induction false} JoinSplit(s: string, sep: char)
    ensures Join(Split(s, sep), sep) == s
  {
    if s != [] {
      JoinSplit(s[1..], sep);
    }
  }

  // strings.ReplaceAll(s, "\r\n", "\n")
  function UnixNewlines(s: string): string {
    if |s| < 2 then s
    else if s[0] == '\r' && s[1] == '\n' then ['\n'] + UnixNewlines(s[2..])
    else [s[0]] + UnixNewlines(s[1..])
  }

  // strings.ReplaceAll(s, "\r", "\n")
  function ReplaceReturns(s: string): (r: string)
    ensures '\r' !in r
  {
    if s == [] then []
    else [if s[0] == '\r' then '\n' else s[0]] + ReplaceReturns(s[1..])
  }

  lemma {:induction false} NewlinesFixed(s: string)
    requires '\r' !in s
    ensures UnixNewlines(s) == s && ReplaceReturns(s) == s
  {
    if s != [] {
      NewlinesFixed(s[1..]);
    }
  }

  // Byte-wise (equivalently, code point by code point) string order.
  predicate Less(a: string, b: string) {
    if b == [] then false
    else if a == [] then true
    else if a[0] != b[0] then a[0] < b[0]
    else Less(a[1..], b[1..])
  }

  lemma {:induction false} LessTotal(a: string, b: string)
    ensures !(Less(a, b) && Less(b, a))
    ensures a != b ==> Less(a, b) || Less(b, a)
    ensures !Less(a, a)
  {
    if a != [] && b != [] {
      LessTotal(a[1..], b[1..]);
      LessTotal(a[1..], a[1..]);
      if a[0] == b[0] && a[1..] == b[1..] {
        assert a == [a[0]] + a[1..] == [b[0]] + b[1..] == b;
      }
    } else if a != [] {
      LessTotal(a[1..], a[1..]);
    }
  }

  lemma {:induction false} LessTransitive(a: string, b: string, c: string)
    requires Less(a, b) && Less(b, c)
    ensures Less(a, c)
  {
    if a != [] && a[0] == b[0] && b[0] == c[0] {
      LessTransitive(a[1..], b[1..], c[1..]);
    }
  }

  // ---- what these functions mean, character by character ----

  const SPACES :=
    "\t\n\U{0b}\U{0c}\r \U{85}\U{A0}\U{1680}\U{2000}\U{2001}\U{2002}\U{2003}\U{2004}\U{2005}\U{2006}"
    + "\U{2007}\U{2008}\U{2009}\U{200A}\U{2028}\U{2029}\U{202F}\U{205F}\U{3000}"

  // The 25 code points with property White_Space.
  lemma SpaceExactly(c: char)
    ensures IsSpace(c) <==> c in SPACES
  {
    assert SPACES[5] == ' ' && SPACES[6] == '\U{85}' && SPACES[7] == '\U{A0}' && SPACES[8] == '\U{1680}';
    assert forall k | 0 <= k < 5 :: SPACES[k] as int == 9 + k;
    assert forall k | 9 <= k < 20 :: SPACES[k] as int == 0x2000 + k - 9;
  }

  ghost predicate Blank(s: string) {
    forall c | c in s :: IsSpace(c)
  }

  lemma {:induction false} TrimLeftCuts(s: string) returns (i: nat)
    ensures i <= |s| && Blank(s[..i]) && TrimLeft(s) == s[i..]
  {
    i := 0;
    if s != [] && IsSpace(s[0]) {
      var k := TrimLeftCuts(s[1..]);
      i := k + 1;
      assert s[..i] == [s[0]] + s[1..][..k];
      assert s[i..] == s[1..][k..];
    }
  }

  lemma {:induction false} TrimRightCuts(s: string) returns (j: nat)
    ensures j <= |s| && Blank(s[j..]) && TrimRight(s) == s[..j]
  {
    j := |s|;
    if s != [] && IsSpace(s[|s| - 1]) {
      var n := |s| - 1;
      j := TrimRightCuts(s[..n]);
      assert s[j..] == s[..n][j..] + [s[n]];
      assert s[..j] == s[..n][..j];
    }
  }

  // Trimming cuts off all spaces at both ends and nothing else.
  lemma TrimCuts(s: string) returns (i: nat, j: nat)
    ensures i <= j <= |s| && TrimSpace(s) == s[i..j]
    ensures Blank(s[..i]) && Blank(s[j..]) && Trimmed(s[i..j])
  {
    i := TrimLeftCuts(s);
    var k := TrimRightCuts(s[i..]);
    j := i + k;
    CutTwice(s, i, k);
    TrimSpaceShape(s);
  }

  lemma CutTwice(s: string, i: nat, k: nat)
    requires i + k <= |s|
    ensures s[i..][k..] == s[i + k..] && s[i..][..k] == s[i..i + k]
  {
  }

  // Nothing is left exactly of a text of spaces.
  lemma BlankExactly(s: string)
    ensures TrimSpace(s) == "" <==> Blank(s)
  {
    var i, j := TrimCuts(s);
    if i == j {
      assert s == s[..i] + s[j..];
    } else {
      assert s[i..j][0] == s[i];
    }
  }

  lemma {:induction false} ContainsWhere(s: string, sub: string) returns (i: nat)
    requires Contains(s, sub)
    ensures i + |sub| <= |s| && s[i..i + |sub|] == sub
  {
    i := 0;
    if !(sub <= s) {
      var k := ContainsWhere(s[1..], sub);
      i := k + 1;
      assert s[i..i + |sub|] == s[1..][k..k + |sub|];
    }
  }

  lemma {:induction false} ContainsAt(s: string, sub: string, i: nat)
    requires i + |sub| <= |s| && s[i..i + |sub|] == sub
    ensures Contains(s, sub)
  {
    if i > 0 {
      assert s[i..i + |sub|] == s[1..][i - 1..i - 1 + |sub|];
      ContainsAt(s[1..], sub, i - 1);
    }
  }

  // Some slice is the other string.
  lemma ContainsExactly(s: string, sub: string)
    ensures Contains(s, sub) <==> exists i, j | 0 <= i <= j <= |s| :: s[i..j] == sub
  {
    if Contains(s, sub) {
      var i := ContainsWhere(s, sub);
      assert s[i..i + |sub|] == sub;
    }
    if i, j :| 0 <= i <= j <= |s| && s[i..j] == sub {
      assert j == i + |sub|;
      ContainsAt(s, sub, i);
    }
  }

  const CAPITALS := "ABCDEFGHIJKLMNOPQRSTUVWXYZ"
  const SMALLS := "abcdefghijklmnopqrstuvwxyz"

  // A character that reads as a small letter, or as itself, in lower case.
  ghost predicate ReadsAs(c: char, l: char) {
    || (c == l && c !in CAPITALS && c != '\U{130}' && c != '\U{212A}')
    || (exists k | 0 <= k < 26 :: c == CAPITALS[k] && l == SMALLS[k])
    || (c == '\U{130}' && l == 'i') || (c == '\U{212A}' && l == 'k')
  }

  lemma CapitalAt(c: char)
    ensures c in CAPITALS <==> 'A' <= c <= 'Z'
    ensures 'A' <= c <= 'Z' ==> CAPITALS[c as int - 65] == c && SMALLS[c as int - 65] as int == c as int + 32
    ensures forall k | 0 <= k < 26 :: CAPITALS[k] as int == 65 + k && SMALLS[k] as int == 97 + k
  {
    assert forall k | 0 <= k < 26 :: CAPITALS[k] as int == 65 + k;
    assert forall k | 0 <= k < 26 :: SMALLS[k] as int == 97 + k;
  }

  lemma SmallAt(c: char)
    ensures c in SMALLS <==> 'a' <= c <= 'z'
  {
    assert forall k | 0 <= k < 26 :: SMALLS[k] as int == 97 + k;
    assert 'a' <= c <= 'z' ==> SMALLS[c as int - 97] == c;
  }

  lemma LowerExactly(c: char, l: char)
    ensures LowerChar(c) == l <==> ReadsAs(c, l)
  {
    CapitalAt(c);
  }

  // The order of the first difference; a proper prefix comes first.
  lemma {:induction false} LessExactly(a: string, b: string)
    ensures Less(a, b) <==>
      (exists k: nat :: DifferAt(a, b, k) && (if k == |a| then k < |b| else k < |b| && a[k] < b[k]))
  {
    if a == [] || b == [] || a[0] != b[0] {
      assert DifferAt(a, b, 0);
    } else {
      LessExactly(a[1..], b[1..]);
      forall k: nat
        ensures DifferAt(a[1..], b[1..], k) <==> DifferAt(a, b, k + 1)
      {
        DifferNext(a, b, k);
      }
      assert !DifferAt(a, b, 0);
      if Less(a, b) {
        var k: nat :| DifferAt(a[1..], b[1..], k)
          && (if k == |a[1..]| then k < |b[1..]| else k < |b[1..]| && a[1..][k] < b[1..][k]);
        assert DifferAt(a, b, k + 1);
      }
      if k: nat :| DifferAt(a, b, k) && (if k == |a| then k < |b| else k < |b| && a[k] < b[k]) {
        assert DifferAt(a[1..], b[1..], k - 1);
      }
    }
  }

  lemma DifferNext(a: string, b: string, k: nat)
    requires a != [] && b != [] && a[0] == b[0]
    ensures DifferAt(a[1..], b[1..], k) <==> DifferAt(a, b, k + 1)
  {
    if k < |a| && k < |b| {
      assert a[..k + 1] == [a[0]] + a[1..][..k] && b[..k + 1] == [b[0]] + b[1..][..k];
      assert a[1..][..k] == a[..k + 1][1..] && b[1..][..k] == b[..k + 1][1..];
    }
  }

  // The strings agree on their first k characters, and not further.
  ghost predicate DifferAt(a: string, b: string, k: nat) {
    && k <= |a| && k <= |b| && a[..k] == b[..k]
    && (k < |a| && k < |b| ==> a[k] != b[k])
  }

  // ---- line breaks ----

  predicate NoBreak(s: string) {
    '\n' !in s && '\r' !in s
  }

  predicate IsBreak(b: string) {
    b == "\n" || b == "\r\n" || b == "\r"
  }

  // Lines and the breaks between them.  A lone return before an empty line that a
  // newline ends would read as one break.
  ghost predicate Breaks(lines: seq<string>, breaks: seq<string>) {
    && |lines| == |breaks| + 1 && (forall i | 0 <= i < |lines| :: NoBreak(lines[i]))
    && (forall i | 0 <= i < |breaks| :: IsBreak(breaks[i]))
    && forall i | 0 <= i < |breaks| - 1 :: breaks[i] == "\r" && breaks[i + 1] == "\n" ==> lines[i + 1] != ""
  }

  function Broken(lines: seq<string>, breaks: seq<string>): string
    requires |lines| == |breaks| + 1
  {
    if breaks == [] then lines[0] else lines[0] + (breaks[0] + Broken(lines[1..], breaks[1..]))
  }

  // strings.ReplaceAll, for "\r\n" and then for "\r"
  function OneBreak(s: string): string {
    ReplaceReturns(UnixNewlines(s))
  }

  lemma {:induction false} OneBreakAfter(l: string, s: string)
    requires NoBreak(l)
    ensures OneBreak(l + s) == l + OneBreak(s)
  {
    if l == "" {
      assert l + s == s;
    } else {
      assert (l + s)[1..] == l[1..] + s;
      OneBreakAfter(l[1..], s);
      if |l + s| < 2 {
        assert l + s == l && l[1..] + s == "";
        assert l[1..] + OneBreak(s) == "";
      }
    }
  }

  lemma OneBreakAt(b: string, s: string)
    requires IsBreak(b) && (b == "\r" ==> s == "" || s[0] != '\n')
    ensures OneBreak(b + s) == "\n" + OneBreak(s)
  {
    if |b| == 1 {
      assert (b + s)[1..] == s;
      if s == "" {
        assert b + s == b;
      } else {
        assert (b + s)[1] == s[0];
      }
    } else {
      assert (b + s)[2..] == s;
    }
  }

  lemma {:induction false} BrokenJoins(lines: seq<string>, breaks: seq<string>)
    requires Breaks(lines, breaks)
    ensures OneBreak(Broken(lines, breaks)) == Join(lines, '\n')
  {
    if breaks == [] {
      OneBreakAfter(lines[0], "");
      assert lines[0] + "" == lines[0];
    } else {
      var rest := Broken(lines[1..], breaks[1..]);
      BrokenJoins(lines[1..], breaks[1..]);
      BrokenStart(lines, breaks);
      OneBreakAt(breaks[0], rest);
      OneBreakAfter(lines[0], breaks[0] + rest);
      assert lines[0] + ("\n" + OneBreak(rest)) == lines[0] + ['\n'] + OneBreak(rest);
    }
  }

  lemma BrokenStart(lines: seq<string>, breaks: seq<string>)
    requires Breaks(lines, breaks) && breaks != []
    ensures var rest := Broken(lines[1..], breaks[1..]); breaks[0] == "\r" ==> rest == "" || rest[0] != '\n'
  {
    assert NoBreak(lines[1]);
    if |breaks| > 1 {
      assert IsBreak(breaks[1]);
    }
  }

  // Whatever the line breaks, splitting gives the lines.
  lemma LinesExactly(lines: seq<string>, breaks: seq<string>)
    requires Breaks(lines, breaks)
    ensures Split(OneBreak(Broken(lines, breaks)), '\n') == lines
  {
    BrokenJoins(lines, breaks);
    forall l | l in lines
      ensures '\n' !in l
    {
      var i :| 0 <= i < |lines| && lines[i] == l;
      assert NoBreak(lines[i]);
    }
    SplitJoin(lines, '\n');
  }
}
