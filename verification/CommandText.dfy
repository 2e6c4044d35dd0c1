// A whole command text: which texts are accepted, with which commands, and which line is
// reported otherwise.
module CommandText {
  import opened Wrappers
  import opened RenderData
  import Text
  import Validate
  import Runner
  import opened Parser
  import Templates
  import RoundTrip
  import Rendering
  import Allowlist

  // ---- characters of the shell ----

  predicate Shell(c: char) {
    c in {';', '|', '&', '`', '$', '>', '<'}
  }

  lemma ShellIs(c: char)
    ensures c in Runner.FORBIDDEN <==> Shell(c)
  {
    var s := Runner.FORBIDDEN;
    assert s[0] == ';' && s[1] == '|' && s[2] == '&' && s[3] == '`' && s[4] == '$' && s[5] == '>' && s[6] == '<';
  }

  lemma InSlices(s: string, from: nat, to: nat, i: nat)
    requires from <= to <= |s| && i < |s|
    ensures i < from ==> s[i] in s[..from]
    ensures to <= i ==> s[i] in s[to..]
    ensures from <= i < to ==> s[i] in s[from..to]
  {
    assert i < from ==> s[..from][i] == s[i];
    assert to <= i ==> s[to..][i - to] == s[i];
    assert from <= i < to ==> s[from..to][i - from] == s[i];
  }

  // They are refused wherever they stand, by the parser and by the runner.
  lemma ShellRefused(raw: string, i: nat)
    requires i < |raw| && Shell(raw[i])
    ensures Judge(raw) == Rejected && Runner.SplitCli(raw) == None
  {
    var line := Text.TrimSpace(raw);
    ShellIs(raw[i]);
    var from, to := Text.TrimCuts(raw);
    InSlices(raw, from, to, i);
    assert !Text.IsSpace(raw[i]) && raw[i] in line;
  }

  // No other character is, if an interface may be named so.
  lemma OthersAccepted(c: char)
    requires Validate.IsDescription([c]) && !Shell(c)
    ensures var line := Templates.Print(Templates.EthernetLine(Ethernet("eth0", [c]))); Judge(line) == Accepted(line)
  {
    var e := Ethernet("eth0", [c]);
    ShellIs(c);
    Rendering.EthernetGood(e);
    RoundTrip.JudgeLine(Templates.EthernetLine(e));
  }

  // ---- texts ----

  // A blank line, or a command that the runner would run as the setting of an allowed path.
  ghost predicate Passes(raw: string) {
    || Text.Blank(raw)
    || exists args :: Runner.SplitCli(raw) == Some(Runner.Cli("set", args)) && ValidSetPath(["set"] + args)
  }

  lemma PassesExactly(raw: string)
    requires Text.NoBreak(raw)
    ensures Judge(raw) != Rejected <==> Passes(raw)
    ensures Passes(raw) ==> Judge(raw) == if Text.Blank(raw) then Skipped else Accepted(Text.TrimSpace(raw))
  {
    Allowlist.LineExactly(raw);
  }

  ghost predicate AllPass(lines: seq<string>) {
    forall raw | raw in lines :: Passes(raw)
  }

  // The lines that are not blank, trimmed.
  ghost function Stripped(lines: seq<string>): seq<string> {
    if lines == [] then []
    else (if Text.Blank(lines[0]) then [] else [Text.TrimSpace(lines[0])]) + Stripped(lines[1..])
  }

  lemma {:induction false} CommandsFirst(lines: seq<string>, judge: string -> LineVerdict)
    requires lines != []
    ensures CommandsBy(lines, judge)
      == (if judge(lines[0]).Accepted? then [judge(lines[0]).command] else []) + CommandsBy(lines[1..], judge)
  {
    var n := |lines| - 1;
    if n > 0 {
      CommandsFirst(lines[..n], judge);
      assert lines[1..][..n - 1] == lines[..n][1..];
    }
  }

  lemma {:induction false} StrippedCommands(lines: seq<string>)
    requires (forall raw | raw in lines :: Text.NoBreak(raw)) && AllPass(lines)
    ensures Commands(lines) == Stripped(lines)
  {
    if lines != [] {
      assert lines[0] in lines && forall raw | raw in lines[1..] :: raw in lines;
      PassesExactly(lines[0]);
      CommandsFirst(lines, Judge);
      StrippedCommands(lines[1..]);
    }
  }

  lemma CleanExactly(lines: seq<string>)
    requires forall raw | raw in lines :: Text.NoBreak(raw)
    ensures Clean(lines) <==> AllPass(lines)
  {
    forall raw | raw in lines
      ensures Judge(raw) != Rejected <==> Passes(raw)
    {
      PassesExactly(raw);
    }
  }

  lemma LinesAre(lines: seq<string>, breaks: seq<string>)
    requires Text.Breaks(lines, breaks)
    ensures Lines(Text.Broken(lines, breaks)) == lines && forall raw | raw in lines :: Text.NoBreak(raw)
  {
    Text.LinesExactly(lines, breaks);
    forall raw | raw in lines
      ensures Text.NoBreak(raw)
    {
      var i :| 0 <= i < |lines| && lines[i] == raw;
    }
  }

  // Of a text of given lines, whatever breaks them: it is accepted with its lines, without
  // the blank ones and trimmed, exactly if all pass and not all are blank.
  lemma TextExactly(lines: seq<string>, breaks: seq<string>, commands: seq<string>)
    requires Text.Breaks(lines, breaks)
    ensures var text := Text.Broken(lines, breaks);
      && (Verdict(text, Ok(commands)) <==> AllPass(lines) && commands == Stripped(lines) && commands != [])
      && (Verdict(text, Err(EmptyDesiredCommands)) <==> AllPass(lines) && Stripped(lines) == [])
  {
    LinesAre(lines, breaks);
    CleanExactly(lines);
    if AllPass(lines) {
      StrippedCommands(lines);
    }
  }

  // Otherwise the first line that does not pass is reported, by its number from 1.
  lemma BadLineExactly(lines: seq<string>, breaks: seq<string>, n: nat)
    requires Text.Breaks(lines, breaks)
    ensures Verdict(Text.Broken(lines, breaks), Err(InvalidCommand(n)))
      <==> 1 <= n <= |lines| && AllPass(lines[..n - 1]) && !Passes(lines[n - 1])
  {
    LinesAre(lines, breaks);
    if 1 <= n <= |lines| {
      FirstBad(lines, n);
    }
  }

  lemma FirstBad(lines: seq<string>, n: nat)
    requires (forall raw | raw in lines :: Text.NoBreak(raw)) && 1 <= n <= |lines|
    ensures Clean(lines[..n - 1]) <==> AllPass(lines[..n - 1])
    ensures Judge(lines[n - 1]) == Rejected <==> !Passes(lines[n - 1])
  {
    assert forall raw | raw in lines[..n - 1] :: raw in lines;
    CleanExactly(lines[..n - 1]);
    PassesExactly(lines[n - 1]);
  }
}
