// The last-resort guards of internal/vyos/runner.go: every command line is
// tokenized once more just before the device tool is started.
module Runner {
  import opened Wrappers
  import Text
  import Tokenizer

  const FORBIDDEN := ";|&`$><"

  datatype Cli = Cli(operation: string, args: seq<string>)

  function SplitCli(command: string): Option<Cli> {
    var trimmed := Text.TrimSpace(command);
    if trimmed == "" || Text.ContainsAny(trimmed, "\r\n") || Text.ContainsAny(trimmed, FORBIDDEN) then None
    else
      match Tokenizer.Tokenize(trimmed)
      case None => None
      case Some(tokens) =>
        if |tokens| < 2 || (tokens[0] != "set" && tokens[0] != "delete") then None
        else Some(Cli(tokens[0], tokens[1..]))
  }

  // splitCLICommand; None stands for every one of its errors
  method SplitCliCommand(command: string) returns (r: Option<Cli>)
    ensures r == SplitCli(command)
  {
    var trimmed := Text.TrimSpace(command);
    if trimmed == "" {
      return None;
    }
    if Text.ContainsAny(trimmed, "\r\n") {
      return None;
    }
    if Text.ContainsAny(trimmed, FORBIDDEN) {
      return None;
    }
    var tokens := Tokenizer.TokenizeCommand(trimmed);
    if tokens.None? {
      return None;
    }
    if |tokens.value| == 0 {
      return None;
    }
    var operation := tokens.value[0];
    if operation != "set" && operation != "delete" {
      return None;
    }
    if |tokens.value| < 2 {
      return None;
    }
    return Some(Cli(operation, tokens.value[1..]));
  }

  // The path that cliSession.Set or cliSession.Delete passes to the device tool.
  function Args(operation: string, command: string): Option<seq<string>> {
    match SplitCli(command)
    case Some(cli) => if cli.operation == operation then Some(cli.args) else None
    case None => None
  }

  // A trimmed, guarded command splits into its operation and its tokens.
  lemma SplitsAs(c: string, tokens: seq<string>)
    requires c != [] && Text.Trimmed(c)
    requires !Text.ContainsAny(c, "\r\n") && !Text.ContainsAny(c, FORBIDDEN)
    requires Tokenizer.Tokenize(c) == Some(tokens) && |tokens| >= 2
    requires tokens[0] == "set" || tokens[0] == "delete"
    ensures SplitCli(c) == Some(Cli(tokens[0], tokens[1..]))
  {
    Text.TrimSpaceFixed(c);
  }

  // ---- what can be run ----

  predicate Allowed(c: char) {
    c !in FORBIDDEN && c != '\r' && c != '\n'
  }

  // A set or delete with a path of words that contain nothing forbidden.
  ghost predicate CanRun(cli: Cli) {
    && (cli.operation == "set" || cli.operation == "delete") && cli.args != []
    && forall a, c | a in cli.args && c in a :: Allowed(c)
  }

  ghost predicate Within(st: Tokenizer.Scan, p: char -> bool) {
    (forall t, c | t in st.tokens && c in t :: p(c)) && forall c | c in st.current :: p(c)
  }

  lemma NextWithin(st: Tokenizer.Scan, c: char, p: char -> bool)
    requires Within(st, p) && p(c)
    ensures Within(st.Next(c), p)
  {
  }

  lemma {:induction false} ScanWithin(st: Tokenizer.Scan, s: string, p: char -> bool)
    requires Within(st, p) && forall c | c in s :: p(c)
    ensures Within(Tokenizer.ScanText(st, s), p)
    decreases |s|
  {
    if s != [] {
      NextWithin(st, s[0], p);
      ScanWithin(st.Next(s[0]), s[1..], p);
    }
  }

  lemma NothingForbidden(s: string)
    requires !Text.ContainsAny(s, "\r\n") && !Text.ContainsAny(s, FORBIDDEN)
    ensures forall c | c in s :: Allowed(c)
  {
    assert "\r\n"[0] == '\r' && "\r\n"[1] == '\n';
  }

  lemma AllAllowed(s: string)
    requires forall c | c in s :: Allowed(c)
    ensures !Text.ContainsAny(s, "\r\n") && !Text.ContainsAny(s, FORBIDDEN)
  {
    forall i | 0 <= i < |s|
      ensures s[i] !in "\r\n" && s[i] !in FORBIDDEN
    {
      assert s[i] in s;
    }
  }

  // Nothing forbidden reaches the device, in whatever way it is quoted.
  lemma SplitSafe(command: string)
    requires SplitCli(command).Some?
    ensures CanRun(SplitCli(command).value)
  {
    var trimmed := Text.TrimSpace(command);
    NothingForbidden(trimmed);
    ScanWithin(Tokenizer.START, trimmed, Allowed);
  }

  // ---- every such call has a command ----

  // A character between quotes of the kind that it is not.
  function Letter(c: char): string {
    if c == '\'' then "\"'\"" else "'" + [c] + "'"
  }

  function Letters(w: string): string {
    if w == "" then "" else Letter(w[0]) + Letters(w[1..])
  }

  // Any word, the empty one included, letter by letter.
  function Spell(w: string): string {
    "''" + Letters(w)
  }

  function Spelled(cli: Cli): string
    decreases |cli.args|
  {
    if cli.args == [] then cli.operation
    else
      var n := |cli.args| - 1;
      Spelled(Cli(cli.operation, cli.args[..n])) + " " + Spell(cli.args[n])
  }

  lemma ScanThree(st: Tokenizer.Scan, a: char, b: char, c: char)
    ensures Tokenizer.ScanText(st, [a, b, c]) == st.Next(a).Next(b).Next(c)
  {
    assert [a, b, c][1..] == [b, c] && [b, c][1..] == [c] && [c][1..] == [];
    assert Tokenizer.ScanText(st.Next(a).Next(b), [c]) == st.Next(a).Next(b).Next(c);
  }

  lemma LetterScanned(st: Tokenizer.Scan, c: char)
    requires !st.Quoted() && st.started
    ensures Tokenizer.ScanText(st, Letter(c)) == st.(current := st.current + [c])
  {
    if c == '\'' {
      ScanThree(st, '"', '\'', '"');
      assert Letter(c) == ['"', '\'', '"'];
    } else {
      ScanThree(st, '\'', c, '\'');
      assert Letter(c) == ['\'', c, '\''];
    }
  }

  lemma {:induction false} LettersScanned(st: Tokenizer.Scan, w: string)
    requires !st.Quoted() && st.started
    ensures Tokenizer.ScanText(st, Letters(w)) == st.(current := st.current + w)
    decreases |w|
  {
    if w == "" {
      assert st.current + w == st.current;
    } else {
      LetterScanned(st, w[0]);
      Tokenizer.ScanConcat(st, Letter(w[0]), Letters(w[1..]));
      LettersScanned(st.(current := st.current + [w[0]]), w[1..]);
      assert st.current + [w[0]] + w[1..] == st.current + w;
    }
  }

  lemma SpellTokenizeInverse(prefix: string, w: string)
    requires Tokenizer.Tokenize(prefix).Some?
    ensures Tokenizer.Tokenize(prefix + " " + Spell(w)) == Some(Tokenizer.Tokenize(prefix).value + [w])
  {
    var st := Tokenizer.AfterSpace(prefix);
    Tokenizer.ScanConcat(Tokenizer.START, prefix + " ", Spell(w));
    Tokenizer.ScanConcat(st, "''", Letters(w));
    Tokenizer.ScanQuoted(st, "");
    assert "'" + "" + "'" == "''";
    LettersScanned(st.(started := true), w);
    assert [] + w == w;
  }

  lemma {:induction false} SpelledTokens(cli: Cli)
    requires Tokenizer.Plain(cli.operation)
    ensures Tokenizer.Tokenize(Spelled(cli)) == Some([cli.operation] + cli.args)
    decreases |cli.args|
  {
    if cli.args == [] {
      Tokenizer.SingleWord(cli.operation);
      assert [cli.operation] + cli.args == [cli.operation];
    } else {
      var n := |cli.args| - 1;
      SpelledTokens(Cli(cli.operation, cli.args[..n]));
      SpellTokenizeInverse(Spelled(Cli(cli.operation, cli.args[..n])), cli.args[n]);
      assert [cli.operation] + cli.args == [cli.operation] + cli.args[..n] + [cli.args[n]];
    }
  }

  lemma {:induction false} LettersAllowed(w: string)
    requires forall c | c in w :: Allowed(c)
    ensures forall c | c in Letters(w) :: Allowed(c)
    ensures w != "" ==> Letters(w) != "" && !Text.IsSpace(Letters(w)[|Letters(w)| - 1])
  {
    if w != "" {
      LettersAllowed(w[1..]);
    }
  }

  lemma {:induction false} SpelledAllowed(cli: Cli)
    requires cli.operation != "" && forall c | c in cli.operation :: Allowed(c) && !Text.IsSpace(c)
    requires forall a, c | a in cli.args && c in a :: Allowed(c)
    ensures var text := Spelled(cli);
      && (forall c | c in text :: Allowed(c))
      && text != "" && !Text.IsSpace(text[0]) && !Text.IsSpace(text[|text| - 1])
    decreases |cli.args|
  {
    if cli.args != [] {
      var n := |cli.args| - 1;
      assert cli.args[n] in cli.args;
      SpelledAllowed(Cli(cli.operation, cli.args[..n]));
      LettersAllowed(cli.args[n]);
    }
  }

  lemma OperationPlain(operation: string)
    requires operation == "set" || operation == "delete"
    ensures Tokenizer.Plain(operation) && forall c | c in operation :: Allowed(c) && !Text.IsSpace(c)
  {
  }

  lemma SpelledSplits(cli: Cli)
    requires CanRun(cli)
    ensures SplitCli(Spelled(cli)) == Some(cli)
  {
    OperationPlain(cli.operation);
    SpelledTokens(cli);
    SpelledAllowed(cli);
    AllAllowed(Spelled(cli));
    SplitsAs(Spelled(cli), [cli.operation] + cli.args);
  }

  // What commands can tell the device is exactly this: a set or a delete of any path
  // whose words contain neither a forbidden character nor a line break.
  lemma SplitExact(cli: Cli)
    ensures (exists command :: SplitCli(command) == Some(cli)) <==> CanRun(cli)
  {
    if command :| SplitCli(command) == Some(cli) {
      SplitSafe(command);
    }
    if CanRun(cli) {
      SpelledSplits(cli);
    }
  }
}
