// Validation of rendered command text: apply/parser.go.
module Parser {
  import opened Wrappers
  import Text
  import Decimal
  import Netip
  import Tokenizer
  import Runner

  datatype ParseError = InvalidCommand(line: nat) | EmptyDesiredCommands

  // ---- the set-path allowlist ----

  predicate IsForbiddenOperation(token: string) {
    token in {"configure", "commit", "save", "discard", "exit", "delete", "show", "run", "sudo"}
  }

  predicate IsIpv4Prefix(token: string) {
    Netip.ParsePrefix(token).Some?
  }

  predicate IsIpv4Addr(token: string) {
    Netip.ParseAddr(token).Some?
  }

  // parsePositiveIntToken
  function PositiveInt(token: string): Option<int> {
    match Decimal.Atoi(token)
    case Some(v) => if v < 1 then None else Some(v)
    case None => None
  }

  predicate ValidSetPath(tokens: seq<string>) {
    && |tokens| >= 4
    && (if tokens[1] == "interfaces" then ValidInterfacesPath(tokens)
        else if tokens[1] == "nat" then tokens[2] == "source"
        else tokens[1] == "service" && ValidServicePath(tokens))
  }

  predicate ValidInterfacesPath(tokens: seq<string>)
    requires |tokens| >= 4
  {
    if tokens[2] == "bridge" then true
    else tokens[2] == "ethernet" && |tokens| >= 6 && tokens[3] != "" && tokens[4] == "description"
  }

  predicate ValidServicePath(tokens: seq<string>)
    requires |tokens| >= 4
  {
    if tokens[2] == "dhcp-server" then ValidDhcpPath(tokens)
    else if tokens[2] == "dns" then ValidDnsPath(tokens)
    else tokens[2] == "ssh" && ValidSshPath(tokens)
  }

  predicate ValidSshPath(tokens: seq<string>) {
    && |tokens| == 5 && tokens[3] == "port"
    && match PositiveInt(tokens[4]) case Some(port) => port <= 65535 case None => false
  }

  predicate ValidDhcpPath(tokens: seq<string>) {
    && |tokens| >= 8 && tokens[3] == "shared-network-name" && tokens[4] != "" && tokens[5] == "subnet"
    && IsIpv4Prefix(tokens[6])
    && (if tokens[7] == "lease" || tokens[7] == "subnet-id" then
          |tokens| == 9 && PositiveInt(tokens[8]).Some?
        else if tokens[7] == "option" then
          |tokens| == 10 && (tokens[8] == "default-router" || tokens[8] == "name-server") && IsIpv4Addr(tokens[9])
        else
          && tokens[7] == "range" && |tokens| == 11 && tokens[8] == "0"
          && (tokens[9] == "start" || tokens[9] == "stop") && IsIpv4Addr(tokens[10]))
  }

  predicate ValidDnsPath(tokens: seq<string>) {
    && |tokens| == 6 && tokens[3] == "forwarding"
    && (if tokens[4] == "allow-from" then IsIpv4Prefix(tokens[5])
        else if tokens[4] == "cache-size" then tokens[5] == "0"
        else tokens[4] == "listen-address" && IsIpv4Addr(tokens[5]))
  }

  // ---- one line ----

  // What becomes of one raw line: nothing, an error, or a command.
  datatype LineVerdict = Skipped | Rejected | Accepted(command: string)

  function Judge(raw: string): LineVerdict {
    var line := Text.TrimSpace(raw);
    if line == "" then Skipped
    else if line[0] == '#' || Text.ContainsAny(line, Runner.FORBIDDEN) then Rejected
    else
      match Tokenizer.Tokenize(line)
      case None => Rejected
      case Some(tokens) =>
        if |tokens| == 0 then Skipped
        else if IsForbiddenOperation(tokens[0]) || tokens[0] != "set" || !ValidSetPath(tokens) then Rejected
        else Accepted(line)
  }

  // ---- the whole text ----

  function Lines(text: string): seq<string> {
    Text.Split(Text.OneBreak(text), '\n')
  }

  // The accepted commands of some lines, in order.
  function CommandsBy(lines: seq<string>, judge: string -> LineVerdict): seq<string> {
    if lines == [] then []
    else
      var front := CommandsBy(lines[..|lines| - 1], judge);
      match judge(lines[|lines| - 1])
      case Accepted(command) => front + [command]
      case _ => front
  }

  function Commands(lines: seq<string>): seq<string> {
    CommandsBy(lines, Judge)
  }

  predicate Clean(lines: seq<string>) {
    forall raw | raw in lines :: Judge(raw) != Rejected
  }

  // The verdict on a text: its first bad line, or all its commands.
  ghost predicate Verdict(text: string, r: Result<seq<string>, ParseError>) {
    var lines := Lines(text);
    match r
    case Ok(commands) => Clean(lines) && commands != [] && commands == Commands(lines)
    case Err(EmptyDesiredCommands) => Clean(lines) && Commands(lines) == []
    case Err(InvalidCommand(n)) => 1 <= n <= |lines| && Clean(lines[..n - 1]) && Judge(lines[n - 1]) == Rejected
  }

  // One round of the loop of parseCommands.
  method ParseLine(raw: string) returns (v: LineVerdict)
    ensures v == Judge(raw)
  {
    var line := Text.TrimSpace(raw);
    if line == "" {
      return Skipped;
    }
    if line[0] == '#' {
      return Rejected;
    }
    if Text.ContainsAny(line, Runner.FORBIDDEN) {
      return Rejected;
    }
    var tokens := Tokenizer.TokenizeCommand(line);
    if tokens.None? {
      return Rejected;
    }
    if |tokens.value| == 0 {
      return Skipped;
    }
    if IsForbiddenOperation(tokens.value[0]) {
      return Rejected;
    }
    if tokens.value[0] != "set" {
      return Rejected;
    }
    if !ValidSetPath(tokens.value) {
      return Rejected;
    }
    return Accepted(line);
  }

  lemma CommandsGrow(lines: seq<string>, i: nat, judge: string -> LineVerdict)
    requires i < |lines|
    ensures lines[..i + 1] == lines[..i] + [lines[i]]
    ensures CommandsBy(lines[..i + 1], judge)
      == CommandsBy(lines[..i], judge) + if judge(lines[i]).Accepted? then [judge(lines[i]).command] else []
  {
    assert lines[..i + 1] == lines[..i] + [lines[i]];
    assert lines[..i + 1][..i] == lines[..i];
  }

  lemma LinesGrow(lines: seq<string>, i: nat)
    requires i < |lines|
    ensures lines[..i + 1] == lines[..i] + [lines[i]]
    ensures Clean(lines[..i]) && Judge(lines[i]) != Rejected ==> Clean(lines[..i + 1])
    ensures Commands(lines[..i + 1])
      == Commands(lines[..i]) + if Judge(lines[i]).Accepted? then [Judge(lines[i]).command] else []
  {
    CommandsGrow(lines, i, Judge);
  }

  // parseCommands
  method ParseCommands(text: string) returns (r: Result<seq<string>, ParseError>)
    ensures Verdict(text, r)
  {
    var normalized := Text.UnixNewlines(text);
    normalized := Text.ReplaceReturns(normalized);
    var lines := Text.Split(normalized, '\n');
    var commands: seq<string> := [];
    for i := 0 to |lines|
      invariant Clean(lines[..i])
      invariant commands == Commands(lines[..i])
    {
      var v := ParseLine(lines[i]);
      LinesGrow(lines, i);
      if v.Rejected? {
        return Err(InvalidCommand(i + 1));
      }
      if v.Skipped? {
        continue;
      }
      commands := commands + [v.command];
    }
    assert lines[..|lines|] == lines;
    if |commands| == 0 {
      return Err(EmptyDesiredCommands);
    }
    return Ok(commands);
  }

  // No text has two verdicts.
  lemma VerdictUnique(text: string, r: Result<seq<string>, ParseError>, r': Result<seq<string>, ParseError>)
    requires Verdict(text, r) && Verdict(text, r')
    ensures r == r'
  {
    var lines := Lines(text);
    assert lines[..|lines|] == lines;
    forall n, m | 0 <= n < m <= |lines| && Judge(lines[n]) == Rejected
      ensures !Clean(lines[..m])
    {
      assert lines[..m][n] in lines[..m];
    }
  }

  // ---- what an accepted command is ----

  // What was validated is what is run: the guards just before the device tool
  // let every accepted command pass, as a set operation on exactly the tokens that
  // were validated.
  lemma ValidatedIsRun(text: string, commands: seq<string>, c: string)
    requires Verdict(text, Ok(commands)) && c in commands
    ensures Runner.SplitCli(c).Some? && Tokenizer.Tokenize(c).Some?
    ensures var tokens := Tokenizer.Tokenize(c).value;
      && ValidSetPath(tokens)
      && Runner.SplitCli(c) == Some(Runner.Cli("set", tokens[1..]))
  {
    var lines := Lines(text);
    AcceptedLine(lines, c, Judge);
    var raw :| raw in lines && Judge(raw) == Accepted(c);
    LinesHaveNoBreaks(text, raw);
    AcceptedSplits(raw, c);
  }

  lemma AcceptedSplits(raw: string, c: string)
    requires Judge(raw) == Accepted(c) && '\n' !in raw && '\r' !in raw
    ensures Tokenizer.Tokenize(c).Some? && ValidSetPath(Tokenizer.Tokenize(c).value)
    ensures Runner.SplitCli(c) == Some(Runner.Cli("set", Tokenizer.Tokenize(c).value[1..]))
  {
    NoBreaks(raw, c);
    Runner.SplitsAs(c, Tokenizer.Tokenize(c).value);
  }

  lemma NoBreaks(raw: string, c: string)
    requires c == Text.TrimSpace(raw) && '\n' !in raw && '\r' !in raw
    ensures !Text.ContainsAny(c, "\r\n") && Text.Trimmed(c)
  {
    Text.TrimSpaceShape(raw);
    assert '\n' !in c && '\r' !in c;
  }

  lemma {:induction false} AcceptedLine(lines: seq<string>, c: string, judge: string -> LineVerdict)
    requires c in CommandsBy(lines, judge)
    ensures exists raw :: raw in lines && judge(raw) == Accepted(c)
  {
    var n := |lines| - 1;
    if judge(lines[n]) == Accepted(c) {
      assert lines[n] in lines;
    } else {
      AcceptedLine(lines[..n], c, judge);
      var raw :| raw in lines[..n] && judge(raw) == Accepted(c);
      assert raw in lines;
    }
  }

  lemma LinesHaveNoBreaks(text: string, raw: string)
    requires raw in Lines(text)
    ensures '\n' !in raw && '\r' !in raw
  {
    var s := Text.OneBreak(text);
    Text.JoinSplit(s, '\n');
    if '\r' in raw {
      PartOfJoin(Lines(text), '\n', raw, '\r');
    }
  }

  lemma {:induction false} PartOfJoin(parts: seq<string>, sep: char, p: string, c: char)
    requires p in parts && c in p
    ensures c in Text.Join(parts, sep)
  {
    if |parts| > 1 && p != parts[0] {
      PartOfJoin(parts[1..], sep, p, c);
    }
  }
}
