// Which commands the apply engine accepts, told apart from how it checks them: the
// service commands are those that the templates print, and a line is accepted exactly if
// the runner would run it as such a command.
module Allowlist {
  import opened Wrappers
  import opened RenderData
  import Text
  import Decimal
  import Netip
  import Tokenizer
  import Runner
  import opened Parser
  import opened Templates

  // ---- service commands ----

  ghost predicate FitLan(l: ServiceLan) {
    && l.name != "" && Netip.ParsePrefix(l.prefix).Some? && Netip.ParseAddr(l.lanIp).Some?
    && Netip.ParseAddr(l.rangeStart).Some? && Netip.ParseAddr(l.rangeStop).Some?
    && 1 <= l.leaseSecs <= Decimal.MAX_INT && 1 <= l.subnetId <= Decimal.MAX_INT
  }

  // Any LANs with names, addresses, and positive numbers, and any port.
  ghost predicate Fit(s: ServiceSection) {
    (forall l | l in s.lans :: FitLan(l)) && (s.sshEnabled ==> 1 <= s.sshPort <= 65535)
  }

  // A positive number may be spelled in other ways.
  ghost predicate ReadsAs(token: string, word: string) {
    token == word || exists n :: 1 <= n <= Decimal.MAX_INT && word == Decimal.Itoa(n) && Decimal.Atoi(token) == Some(n)
  }

  // The words of a line, but for how the last one is spelled if it is a number.
  ghost predicate Like(tokens: seq<string>, line: Line) {
    var n := |line| - 1;
    && |tokens| == |line| && line != [] && (forall i | 0 <= i < n :: tokens[i] == line[i].text)
    && ReadsAs(tokens[n], line[n].text)
  }

  ghost predicate PrintedService(tokens: seq<string>) {
    exists s, line :: Fit(s) && line in ServiceLines(s) && Like(tokens, line)
  }

  lemma PositiveReads(token: string)
    ensures PositiveInt(token).Some? ==>
      && 1 <= PositiveInt(token).value <= Decimal.MAX_INT
      && ReadsAs(token, Decimal.Itoa(PositiveInt(token).value))
  {
  }

  lemma ReadsPositive(token: string, n: int)
    requires 1 <= n <= Decimal.MAX_INT && ReadsAs(token, Decimal.Itoa(n))
    ensures PositiveInt(token) == Some(n)
  {
    Decimal.AtoiItoa(n);
    if k :| 1 <= k <= Decimal.MAX_INT && Decimal.Itoa(n) == Decimal.Itoa(k) && Decimal.Atoi(token) == Some(k) {
      Decimal.AtoiItoa(k);
    }
  }

  // Addresses and zero have no other spelling.
  lemma ReadsOther(token: string, word: string)
    requires ReadsAs(token, word) && (word == "0" || Netip.ParseAddr(word).Some? || Netip.ParsePrefix(word).Some?)
    ensures token == word
  {
    if n :| 1 <= n <= Decimal.MAX_INT && word == Decimal.Itoa(n) {
      NotAddress(n);
    }
  }

  lemma NotAddress(n: int)
    requires n >= 1
    ensures Decimal.Itoa(n) != "0"
    ensures Netip.ParseAddr(Decimal.Itoa(n)).None? && Netip.ParsePrefix(Decimal.Itoa(n)).None?
  {
    var word := Decimal.Itoa(n);
    Undivided(word, '.');
    Undivided(word, '/');
  }

  lemma Undivided(s: string, sep: char)
    requires sep !in s
    ensures |Text.Split(s, sep)| == 1
  {
    Text.SplitPiece(s, "", sep);
    assert s + "" == s;
  }

  // Some LAN of a name and a block.
  function SomeLan(name: string, prefix: string): ServiceLan {
    var any := Netip.PrintAddr(0);
    ServiceLan(name, any, prefix, 1, any, any, 1)
  }

  lemma SomeLanFits(name: string, prefix: string)
    requires name != "" && Netip.ParsePrefix(prefix).Some?
    ensures FitLan(SomeLan(name, prefix))
  {
    Netip.ParsePrintAddr(0);
  }

  lemma LikeBares(tokens: seq<string>, words: seq<string>)
    requires |tokens| == |words| > 0 && ReadsAs(tokens[|words| - 1], words[|words| - 1])
    requires forall i | 0 <= i < |words| - 1 :: tokens[i] == words[i]
    ensures Like(tokens, Bares(words))
  {
  }

  lemma LanLinesIn(l: ServiceLan, line: Line, port: int)
    requires line in DhcpLines(l)
    ensures line in ServiceLines(ServiceSection([l], false, port))
  {
    assert [l][..0] == [] && DhcpLists([l]) == [DhcpLines(l)] && [DhcpLines(l)][..0] == [];
    assert Concat([DhcpLines(l)]) == Concat([]) + DhcpLines(l);
  }

  lemma LanPrinted(tokens: seq<string>, l: ServiceLan, words: seq<string>)
    requires FitLan(l) && Bares(DhcpHead(l) + words) in DhcpLines(l) && words != []
    requires |tokens| == 7 + |words| && tokens[..7] == DhcpHead(l) && ReadsAs(tokens[|tokens| - 1], words[|words| - 1])
    requires forall i | 0 <= i < |words| - 1 :: tokens[7 + i] == words[i]
    ensures PrintedService(tokens)
  {
    var all := DhcpHead(l) + words;
    forall i | 0 <= i < |all| - 1
      ensures tokens[i] == all[i]
    {
      if i < 7 {
        assert tokens[i] == tokens[..7][i];
      }
    }
    LikeBares(tokens, all);
    LanLinesIn(l, Bares(all), 0);
    assert Fit(ServiceSection([l], false, 0));
  }

  lemma NumberLines(l: ServiceLan)
    ensures Bares(DhcpHead(l) + ["lease", Decimal.Itoa(l.leaseSecs)]) in DhcpLines(l)
    ensures Bares(DhcpHead(l) + ["subnet-id", Decimal.Itoa(l.subnetId)]) in DhcpLines(l)
  {
    assert DhcpLines(l)[0] in DhcpLines(l) && DhcpLines(l)[5] in DhcpLines(l);
  }

  lemma OptionLines(l: ServiceLan)
    ensures Bares(DhcpHead(l) + ["option", "default-router", l.lanIp]) in DhcpLines(l)
    ensures Bares(DhcpHead(l) + ["option", "name-server", l.lanIp]) in DhcpLines(l)
  {
    assert DhcpLines(l)[1] in DhcpLines(l) && DhcpLines(l)[2] in DhcpLines(l);
  }

  lemma RangeLines(l: ServiceLan)
    ensures Bares(DhcpHead(l) + ["range", "0", "start", l.rangeStart]) in DhcpLines(l)
    ensures Bares(DhcpHead(l) + ["range", "0", "stop", l.rangeStop]) in DhcpLines(l)
  {
    assert DhcpLines(l)[3] in DhcpLines(l) && DhcpLines(l)[4] in DhcpLines(l);
  }

  // The start of a DHCP command.
  ghost predicate DhcpStart(tokens: seq<string>) {
    && |tokens| >= 8 && tokens[..3] == ["set", "service", "dhcp-server"]
    && tokens[3] == "shared-network-name" && tokens[4] != "" && tokens[5] == "subnet"
    && Netip.ParsePrefix(tokens[6]).Some?
  }

  lemma StartOf(tokens: seq<string>, l: ServiceLan)
    requires DhcpStart(tokens) && l.name == tokens[4] && l.prefix == tokens[6]
    ensures tokens[..7] == DhcpHead(l)
  {
    assert tokens[0] == tokens[..3][0] && tokens[1] == tokens[..3][1] && tokens[2] == tokens[..3][2];
  }

  // A LAN that the command is for.
  ghost predicate LanOf(tokens: seq<string>, l: ServiceLan) {
    DhcpStart(tokens) && FitLan(l) && l.name == tokens[4] && l.prefix == tokens[6]
  }

  lemma TailPrinted(tokens: seq<string>, l: ServiceLan, words: seq<string>)
    requires LanOf(tokens, l) && Bares(DhcpHead(l) + words) in DhcpLines(l) && words != []
    requires |tokens| == 7 + |words| && ReadsAs(tokens[|tokens| - 1], words[|words| - 1])
    requires forall i | 0 <= i < |words| - 1 :: tokens[7 + i] == words[i]
    ensures PrintedService(tokens)
  {
    StartOf(tokens, l);
    LanPrinted(tokens, l, words);
  }

  lemma NumberPrinted(tokens: seq<string>, l: ServiceLan, n: int)
    requires LanOf(tokens, l) && |tokens| == 9 && ReadsAs(tokens[8], Decimal.Itoa(n))
    requires (tokens[7] == "lease" && l.leaseSecs == n) || (tokens[7] == "subnet-id" && l.subnetId == n)
    ensures PrintedService(tokens)
  {
    NumberLines(l);
    TailPrinted(tokens, l, [tokens[7], Decimal.Itoa(n)]);
  }

  lemma OptionPrinted(tokens: seq<string>, l: ServiceLan)
    requires LanOf(tokens, l) && |tokens| == 10 && tokens[7] == "option" && l.lanIp == tokens[9]
    requires tokens[8] == "default-router" || tokens[8] == "name-server"
    ensures PrintedService(tokens)
  {
    OptionLines(l);
    TailPrinted(tokens, l, ["option", tokens[8], tokens[9]]);
  }

  lemma RangePrinted(tokens: seq<string>, l: ServiceLan)
    requires LanOf(tokens, l) && |tokens| == 11 && tokens[7] == "range" && tokens[8] == "0"
    requires (tokens[9] == "start" && l.rangeStart == tokens[10]) || (tokens[9] == "stop" && l.rangeStop == tokens[10])
    ensures PrintedService(tokens)
  {
    RangeLines(l);
    TailPrinted(tokens, l, ["range", "0", tokens[9], tokens[10]]);
  }

  // A DHCP command that is accepted is printed for some LAN.
  lemma DhcpPrinted(tokens: seq<string>)
    requires |tokens| >= 4 && tokens[..3] == ["set", "service", "dhcp-server"] && ValidDhcpPath(tokens)
    ensures PrintedService(tokens)
  {
    SomeLanFits(tokens[4], tokens[6]);
    var l := SomeLan(tokens[4], tokens[6]);
    if tokens[7] == "lease" || tokens[7] == "subnet-id" {
      PositiveReads(tokens[8]);
      var n := PositiveInt(tokens[8]).value;
      NumberPrinted(tokens, l.(leaseSecs := n, subnetId := n), n);
    } else if tokens[7] == "option" {
      OptionPrinted(tokens, l.(lanIp := tokens[9]));
    } else {
      RangePrinted(tokens, l.(rangeStart := tokens[10], rangeStop := tokens[10]));
    }
  }

  lemma DnsLineIn(l: ServiceLan)
    ensures var s := ServiceSection([l], false, 0);
      && DnsLine(["allow-from", l.prefix]) in ServiceLines(s) && DnsLine(["cache-size", "0"]) in ServiceLines(s)
      && DnsLine(["listen-address", l.lanIp]) in ServiceLines(s)
  {
    var lines := DnsLines([l]);
    assert lines[0] == DnsLine(["allow-from", l.prefix]) && lines[1] == DnsLine(["cache-size", "0"]);
    assert lines[2] == DnsLine(["listen-address", l.lanIp]);
  }

  lemma DnsPrinted(tokens: seq<string>)
    requires |tokens| >= 4 && tokens[..3] == ["set", "service", "dns"] && ValidDnsPath(tokens)
    ensures PrintedService(tokens)
  {
    var prefix := if tokens[4] == "allow-from" then tokens[5] else Netip.PrintPrefix(Netip.Prefix(0, 0));
    Netip.ParsePrintPrefix(Netip.Prefix(0, 0));
    SomeLanFits("lan", prefix);
    var l := SomeLan("lan", prefix);
    if tokens[4] == "listen-address" {
      l := l.(lanIp := tokens[5]);
    }
    DnsLineIn(l);
    DnsLike(tokens, l);
  }

  lemma DnsLike(tokens: seq<string>, l: ServiceLan)
    requires |tokens| == 6 && tokens[..3] == ["set", "service", "dns"] && tokens[3] == "forwarding" && FitLan(l)
    requires DnsLine([tokens[4], tokens[5]]) in ServiceLines(ServiceSection([l], false, 0))
    ensures PrintedService(tokens)
  {
    var words := ["set", "service", "dns", "forwarding"] + [tokens[4], tokens[5]];
    assert tokens[0] == tokens[..3][0] && tokens[1] == tokens[..3][1] && tokens[2] == tokens[..3][2];
    LikeBares(tokens, words);
    assert Fit(ServiceSection([l], false, 0));
  }

  lemma SshPrinted(tokens: seq<string>)
    requires |tokens| >= 4 && tokens[..3] == ["set", "service", "ssh"] && ValidSshPath(tokens)
    ensures PrintedService(tokens)
  {
    PositiveReads(tokens[4]);
    var s := ServiceSection([], true, PositiveInt(tokens[4]).value);
    var words := ["set", "service", "ssh", "port", Decimal.Itoa(s.sshPort)];
    assert tokens[0] == tokens[..3][0] && tokens[1] == tokens[..3][1] && tokens[2] == tokens[..3][2];
    LikeBares(tokens, words);
    assert SshLines(s)[0] == Bares(words);
    assert Bares(words) in ServiceLines(s);
  }

  // ---- and the other way round ----

  lemma LanAccepted(tokens: seq<string>, l: ServiceLan, words: seq<string>)
    requires FitLan(l) && Like(tokens, Bares(DhcpHead(l) + words)) && words != []
    ensures DhcpStart(tokens) && |tokens| == 7 + |words| && ReadsAs(tokens[|tokens| - 1], words[|words| - 1])
    ensures forall i | 0 <= i < |words| - 1 :: tokens[7 + i] == words[i]
  {
    var all := DhcpHead(l) + words;
    forall i | 0 <= i < |words| - 1
      ensures tokens[7 + i] == words[i]
    {
      assert all[7 + i] == words[i] && Bares(all)[7 + i].text == words[i];
    }
    forall i | 0 <= i < 7
      ensures tokens[i] == DhcpHead(l)[i]
    {
      assert all[i] == DhcpHead(l)[i] && Bares(all)[i].text == all[i];
    }
    assert tokens[..3] == ["set", "service", "dhcp-server"];
  }

  lemma DhcpAccepted(tokens: seq<string>, l: ServiceLan, line: Line)
    requires FitLan(l) && line in DhcpLines(l) && Like(tokens, line)
    ensures |tokens| >= 4 && tokens[0] == "set" && tokens[1] == "service" && ValidSetPath(tokens)
  {
    var k :| 0 <= k < 6 && DhcpLines(l)[k] == line;
    if k == 0 {
      NumberAccepted(tokens, l, "lease", l.leaseSecs);
    } else if k == 5 {
      NumberAccepted(tokens, l, "subnet-id", l.subnetId);
    } else if k == 1 || k == 2 {
      OptionAccepted(tokens, l, if k == 1 then "default-router" else "name-server");
    } else {
      RangeAccepted(tokens, l, if k == 3 then "start" else "stop", if k == 3 then l.rangeStart else l.rangeStop);
    }
  }

  lemma NumberAccepted(tokens: seq<string>, l: ServiceLan, word: string, n: int)
    requires FitLan(l) && Like(tokens, Bares(DhcpHead(l) + [word, Decimal.Itoa(n)])) && 1 <= n <= Decimal.MAX_INT
    requires word == "lease" || word == "subnet-id"
    ensures |tokens| >= 4 && tokens[0] == "set" && tokens[1] == "service" && ValidSetPath(tokens)
  {
    LanAccepted(tokens, l, [word, Decimal.Itoa(n)]);
    ReadsPositive(tokens[8], n);
    StartWords(tokens);
  }

  lemma OptionAccepted(tokens: seq<string>, l: ServiceLan, word: string)
    requires FitLan(l) && Like(tokens, Bares(DhcpHead(l) + ["option", word, l.lanIp]))
    requires word == "default-router" || word == "name-server"
    ensures |tokens| >= 4 && tokens[0] == "set" && tokens[1] == "service" && ValidSetPath(tokens)
  {
    LanAccepted(tokens, l, ["option", word, l.lanIp]);
    ReadsOther(tokens[9], l.lanIp);
    StartWords(tokens);
  }

  lemma RangeAccepted(tokens: seq<string>, l: ServiceLan, word: string, address: string)
    requires FitLan(l) && Like(tokens, Bares(DhcpHead(l) + ["range", "0", word, address]))
    requires (word == "start" || word == "stop") && Netip.ParseAddr(address).Some?
    ensures |tokens| >= 4 && tokens[0] == "set" && tokens[1] == "service" && ValidSetPath(tokens)
  {
    LanAccepted(tokens, l, ["range", "0", word, address]);
    ReadsOther(tokens[10], address);
    StartWords(tokens);
  }

  lemma StartWords(tokens: seq<string>)
    requires DhcpStart(tokens)
    ensures tokens[0] == "set" && tokens[1] == "service" && tokens[2] == "dhcp-server"
  {
    assert tokens[0] == tokens[..3][0] && tokens[1] == tokens[..3][1] && tokens[2] == tokens[..3][2];
  }

  lemma DnsAccepted(tokens: seq<string>, l: ServiceLan, words: seq<string>)
    requires FitLan(l) && |words| == 2 && Like(tokens, DnsLine(words))
    requires words == ["allow-from", l.prefix] || words == ["cache-size", "0"] || words == ["listen-address", l.lanIp]
    ensures |tokens| >= 4 && tokens[0] == "set" && tokens[1] == "service" && ValidSetPath(tokens)
  {
    var all := ["set", "service", "dns", "forwarding"] + words;
    forall i | 0 <= i < 5
      ensures tokens[i] == all[i]
    {
      assert DnsLine(words)[i].text == all[i];
    }
    ReadsOther(tokens[5], words[1]);
  }

  lemma SshAccepted(tokens: seq<string>, s: ServiceSection)
    requires Fit(s) && s.sshEnabled && Like(tokens, SshLines(s)[0])
    ensures |tokens| >= 4 && tokens[0] == "set" && tokens[1] == "service" && ValidSetPath(tokens)
  {
    var words := ["set", "service", "ssh", "port", Decimal.Itoa(s.sshPort)];
    forall i | 0 <= i < 4
      ensures tokens[i] == words[i]
    {
      assert SshLines(s)[0][i].text == words[i];
    }
    ReadsPositive(tokens[4], s.sshPort);
  }

  lemma ServiceAccepted(tokens: seq<string>, s: ServiceSection, line: Line)
    requires Fit(s) && line in ServiceLines(s) && Like(tokens, line)
    ensures |tokens| >= 4 && tokens[0] == "set" && tokens[1] == "service" && ValidSetPath(tokens)
  {
    if line in AllDhcpLines(s.lans) {
      var k := InLists(DhcpLists(s.lans), line);
      assert s.lans[k] in s.lans;
      DhcpAccepted(tokens, s.lans[k], line);
    } else if line in DnsLines(s.lans) {
      DnsLineOf(tokens, s, line);
    } else {
      SshAccepted(tokens, s);
    }
  }

  lemma DnsLineOf(tokens: seq<string>, s: ServiceSection, line: Line)
    requires Fit(s) && line in DnsLines(s.lans) && Like(tokens, line)
    ensures |tokens| >= 4 && tokens[0] == "set" && tokens[1] == "service" && ValidSetPath(tokens)
  {
    var l, words := DnsOf(s.lans, line);
    DnsAccepted(tokens, l, words);
  }

  lemma DnsOf(lans: seq<ServiceLan>, line: Line) returns (l: ServiceLan, words: seq<string>)
    requires line in DnsLines(lans)
    ensures l in lans && line == DnsLine(words)
    ensures words == ["allow-from", l.prefix] || words == ["cache-size", "0"] || words == ["listen-address", l.lanIp]
  {
    var n := |lans|;
    var k :| 0 <= k < |DnsLines(lans)| && DnsLines(lans)[k] == line;
    if k < n {
      l, words := lans[k], ["allow-from", lans[k].prefix];
    } else if k == n {
      l, words := lans[0], ["cache-size", "0"];
    } else {
      l, words := lans[k - n - 1], ["listen-address", lans[k - n - 1].lanIp];
    }
  }

  // The service commands that are accepted are exactly those that the templates print
  // for some LANs or some port, up to how a positive number is spelled.
  lemma ServiceExactly(tokens: seq<string>)
    requires |tokens| >= 1 && tokens[0] == "set"
    ensures |tokens| >= 4 && tokens[1] == "service" && ValidSetPath(tokens) <==> PrintedService(tokens)
  {
    if |tokens| >= 4 && tokens[1] == "service" && ValidSetPath(tokens) {
      assert tokens[..3] == ["set", "service", tokens[2]];
      if tokens[2] == "dhcp-server" {
        DhcpPrinted(tokens);
      } else if tokens[2] == "dns" {
        DnsPrinted(tokens);
      } else {
        SshPrinted(tokens);
      }
    }
    if s, line :| Fit(s) && line in ServiceLines(s) && Like(tokens, line) {
      ServiceAccepted(tokens, s, line);
    }
  }

  // Their numbers are positive, and a port fits into 16 bits.
  lemma NumbersPositive(tokens: seq<string>)
    requires ValidSetPath(tokens) && tokens[1] == "service"
    ensures tokens[2] == "dhcp-server" && (tokens[7] == "lease" || tokens[7] == "subnet-id") ==>
      |tokens| == 9 && Decimal.Atoi(tokens[8]).Some? && Decimal.Atoi(tokens[8]).value >= 1
    ensures tokens[2] == "ssh" ==>
      |tokens| == 5 && Decimal.Atoi(tokens[4]).Some? && 1 <= Decimal.Atoi(tokens[4]).value <= 0xFFFF
  {
  }

  // ---- all commands ----

  ghost predicate Below(root: seq<string>, tokens: seq<string>) {
    |tokens| > 1 + |root| && root == tokens[1..1 + |root|]
  }

  // The description of some ethernet.
  ghost predicate Description(tokens: seq<string>) {
    && |tokens| >= 6 && tokens[1..3] == ["interfaces", "ethernet"] && tokens[3] != "" && tokens[4] == "description"
  }

  // Bridges and source NAT may be set as one likes, ethernets only described, and
  // services only as printed.
  lemma PathExactly(tokens: seq<string>)
    requires |tokens| >= 1 && tokens[0] == "set"
    ensures ValidSetPath(tokens) <==>
      || Below(["interfaces", "bridge"], tokens) || Below(["nat", "source"], tokens)
      || Description(tokens) || PrintedService(tokens)
  {
    ServiceExactly(tokens);
    if |tokens| >= 4 {
      assert tokens[1..3] == [tokens[1], tokens[2]];
    }
    if PrintedService(tokens) {
      assert |tokens| >= 4;
    }
  }

  // ---- one line ----

  lemma {:induction false} FirstToken(st: Tokenizer.Scan, s: string)
    requires st.started
    ensures var tokens := Tokenizer.ScanText(st, s).Flush().tokens;
      |tokens| > |st.tokens| && st.current <= tokens[|st.tokens|]
    decreases |s|
  {
    if s != "" {
      var next := st.Next(s[0]);
      if next.started {
        FirstToken(next, s[1..]);
      } else {
        TokensStay(next, s[1..]);
      }
    }
  }

  lemma {:induction false} TokensStay(st: Tokenizer.Scan, s: string)
    ensures st.tokens <= Tokenizer.ScanText(st, s).Flush().tokens
    decreases |s|
  {
    if s != "" {
      TokensStay(st.Next(s[0]), s[1..]);
    }
  }

  // A trimmed line has a first token, which starts as the line does.
  lemma FirstOfLine(line: string)
    requires line != "" && !Text.IsSpace(line[0]) && Tokenizer.Tokenize(line).Some?
    ensures |Tokenizer.Tokenize(line).value| >= 1
    ensures line[0] == '#' ==> Tokenizer.Tokenize(line).value[0] != "set"
  {
    var st := Tokenizer.START.Next(line[0]);
    FirstToken(st, line[1..]);
    if line[0] == '#' {
      assert st.current == ['#'] && Tokenizer.Tokenize(line).value[0][0] == '#';
    }
  }

  // A line is accepted exactly if the runner would run it as the setting of an allowed
  // path, and then it is run as it stands, trimmed; it is skipped exactly if it is blank.
  lemma LineExactly(raw: string)
    requires Text.NoBreak(raw)
    ensures Judge(raw).Accepted? <==>
      exists args :: Runner.SplitCli(raw) == Some(Runner.Cli("set", args)) && ValidSetPath(["set"] + args)
    ensures Judge(raw).Accepted? ==> Judge(raw).command == Text.TrimSpace(raw)
    ensures Judge(raw).Skipped? <==> Text.Blank(raw)
  {
    var line := Text.TrimSpace(raw);
    Text.BlankExactly(raw);
    if line != "" {
      NoBreaks(raw, line);
      JudgeExactly(raw, line);
    }
  }

  lemma JudgeExactly(raw: string, line: string)
    requires line == Text.TrimSpace(raw) && line != "" && Text.Trimmed(line) && !Text.ContainsAny(line, "\r\n")
    ensures !Judge(raw).Skipped?
    ensures Judge(raw).Accepted? <==>
      exists args :: Runner.SplitCli(raw) == Some(Runner.Cli("set", args)) && ValidSetPath(["set"] + args)
  {
    if !Text.ContainsAny(line, Runner.FORBIDDEN) && Tokenizer.Tokenize(line).Some? {
      var tokens := Tokenizer.Tokenize(line).value;
      FirstOfLine(line);
      if tokens[0] == "set" {
        assert tokens == ["set"] + tokens[1..];
      }
    }
  }
}
