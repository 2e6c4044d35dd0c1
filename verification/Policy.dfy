// Reset roots and the delete commands built from them: apply/policy.go.
module Policy {
  import opened Wrappers
  import Text
  import Tokenizer
  import Runner
  import Grammar

  const BRIDGE := "interfaces bridge"
  const BRIDGE_BR0 := "interfaces bridge br0"
  const NAT_SOURCE := "nat source"
  const DHCP_SERVER := "service dhcp-server"
  const DNS_FORWARDING := "service dns forwarding"
  const SSH := "service ssh"

  datatype PolicyError = EmptyRoot | FullConfig | UnsupportedRoot(root: string)

  const DEFAULT_ROOTS: seq<string> := [BRIDGE, NAT_SOURCE, DHCP_SERVER, DNS_FORWARDING, SSH]

  predicate IsAllowedRoot(root: string) {
    root in {BRIDGE, BRIDGE_BR0, NAT_SOURCE, DHCP_SERVER, DNS_FORWARDING, SSH}
  }

  // The configuration path a root names.
  function RootWords(root: string): seq<string> {
    if root == BRIDGE then ["interfaces", "bridge"]
    else if root == BRIDGE_BR0 then ["interfaces", "bridge", "br0"]
    else if root == NAT_SOURCE then ["nat", "source"]
    else if root == DHCP_SERVER then ["service", "dhcp-server"]
    else if root == DNS_FORWARDING then ["service", "dns", "forwarding"]
    else ["service", "ssh"]
  }

  // strings.Fields, with the field under construction as an accumulator
  function FieldsFrom(field: string, s: string): seq<string>
    decreases |s|
  {
    if s == [] then (if field == [] then [] else [field])
    else if !Text.IsSpace(s[0]) then FieldsFrom(field + [s[0]], s[1..])
    else if field == [] then FieldsFrom([], s[1..])
    else [field] + FieldsFrom([], s[1..])
  }

  // normalizeResetRoot
  function NormalizeRoot(root: string): string {
    Text.Join(FieldsFrom([], Text.TrimSpace(root)), ' ')
  }

  function RootError(root: string): Option<PolicyError> {
    if root == "" then Some(EmptyRoot)
    else if root == "/" then Some(FullConfig)
    else if !IsAllowedRoot(root) then Some(UnsupportedRoot(root))
    else None
  }

  // validateResetPolicy
  method ValidateResetPolicy(policy: seq<string>) returns (r: Result<seq<string>, PolicyError>)
    ensures r.Ok? <==> forall i | 0 <= i < |policy| :: RootError(NormalizeRoot(policy[i])) == None
    ensures r.Ok? ==> |r.value| == |policy|
    ensures r.Ok? ==> forall i | 0 <= i < |policy| :: r.value[i] == NormalizeRoot(policy[i])
    ensures r.Err? ==> exists i | 0 <= i < |policy| ::
      RootError(NormalizeRoot(policy[i])) == Some(r.error)
      && forall j | 0 <= j < i :: RootError(NormalizeRoot(policy[j])) == None
  {
    var roots: seq<string> := [];
    for i := 0 to |policy|
      invariant |roots| == i
      invariant forall j | 0 <= j < i :: roots[j] == NormalizeRoot(policy[j])
      invariant forall j | 0 <= j < i :: RootError(NormalizeRoot(policy[j])) == None
    {
      var normalized := NormalizeRoot(policy[i]);
      var bad := RootError(normalized);
      if bad.Some? {
        assert RootError(NormalizeRoot(policy[i])) == Some(bad.value);
        return Err(bad.value);
      }
      roots := roots + [normalized];
    }
    return Ok(roots);
  }

  function DeleteCommand(root: string): string {
    "delete " + root
  }

  // buildDeleteCommands
  method BuildDeleteCommands(roots: seq<string>) returns (deletes: seq<string>)
    ensures deletes == seq(|roots|, i requires 0 <= i < |roots| => DeleteCommand(roots[i]))
  {
    deletes := [];
    for i := 0 to |roots|
      invariant |deletes| == i
      invariant forall j | 0 <= j < i :: deletes[j] == DeleteCommand(roots[j])
    {
      deletes := deletes + ["delete " + roots[i]];
    }
  }

  predicate IsPlainChar(c: char) {
    'a' <= c <= 'z' || c == '-' || c == '0'
  }

  predicate IsPlainWord(w: string) {
    w != [] && forall i | 0 <= i < |w| :: IsPlainChar(w[i])
  }

  // A command made of plain words, with the tokens it splits into.
  ghost predicate Spells(c: string, words: seq<string>) {
    && Tokenizer.Tokenize(c) == Some(words)
    && c != [] && c[0] != ' ' && c[|c| - 1] != ' '
    && forall i | 0 <= i < |c| :: IsPlainChar(c[i]) || c[i] == ' '
  }

  lemma FirstWord(w: string)
    requires IsPlainWord(w)
    ensures Spells(w, [w])
  {
    Tokenizer.SingleWord(w);
  }

  lemma NextWord(c: string, words: seq<string>, w: string)
    requires Spells(c, words) && IsPlainWord(w)
    ensures Spells(c + " " + w, words + [w])
  {
    Tokenizer.PlainTokenizeInverse(c, w);
  }

  lemma SpelledRuns(c: string, words: seq<string>)
    requires Spells(c, ["delete"] + words) && words != []
    ensures Runner.SplitCli(c) == Some(Runner.Cli("delete", words))
  {
    Runner.SplitsAs(c, ["delete"] + words);
  }

  lemma DeletePair(a: string, b: string)
    requires IsPlainWord(a) && IsPlainWord(b)
    ensures Spells("delete " + (a + " " + b), ["delete"] + [a, b])
  {
    FirstWord("delete");
    WordPair("delete", ["delete"], a, b);
    assert "delete" + " " + a + " " + b == "delete " + (a + " " + b);
  }

  lemma WordPair(c: string, words: seq<string>, a: string, b: string)
    requires Spells(c, words) && IsPlainWord(a) && IsPlainWord(b)
    ensures Spells(c + " " + a + " " + b, words + [a, b])
  {
    NextWord(c, words, a);
    NextWord(c + " " + a, words + [a], b);
    assert words + [a] + [b] == words + [a, b];
  }

  lemma DeleteTriple(a: string, b: string, c: string)
    requires IsPlainWord(a) && IsPlainWord(b) && IsPlainWord(c)
    ensures Spells("delete " + (a + " " + b + " " + c), ["delete"] + [a, b, c])
  {
    DeletePair(a, b);
    NextWord("delete " + (a + " " + b), ["delete"] + [a, b], c);
    assert ["delete"] + [a, b] + [c] == ["delete"] + [a, b, c];
    assert "delete " + (a + " " + b) + " " + c == "delete " + (a + " " + b + " " + c);
  }

  // A root and the words it is spelled with.
  predicate Spelling(root: string, w: seq<string>) {
    && 2 <= |w| <= 3
    && IsPlainWord(w[0]) && IsPlainWord(w[1])
    && (if |w| == 2 then root == w[0] + " " + w[1]
        else IsPlainWord(w[2]) && root == w[0] + " " + w[1] + " " + w[2])
  }

  lemma SpelledInterfaces()
    ensures Spelling(BRIDGE, ["interfaces", "bridge"])
    ensures Spelling(BRIDGE_BR0, ["interfaces", "bridge", "br0"])
    ensures Spelling(NAT_SOURCE, ["nat", "source"])
  {
  }

  lemma SpelledServices()
    ensures Spelling(DHCP_SERVER, ["service", "dhcp-server"])
    ensures Spelling(DNS_FORWARDING, ["service", "dns", "forwarding"])
    ensures Spelling(SSH, ["service", "ssh"])
  {
  }

  lemma SpellingRuns(root: string, w: seq<string>)
    requires Spelling(root, w)
    ensures Runner.SplitCli(DeleteCommand(root)) == Some(Runner.Cli("delete", w))
  {
    if |w| == 2 {
      DeletePair(w[0], w[1]);
      assert w == [w[0], w[1]];
    } else {
      DeleteTriple(w[0], w[1], w[2]);
      assert w == [w[0], w[1], w[2]];
    }
    SpelledRuns(DeleteCommand(root), w);
  }

  // The delete command of an allowed root passes the runner's guards and deletes
  // exactly that root's path.
  lemma DeleteIsRun(root: string)
    requires IsAllowedRoot(root)
    ensures Runner.SplitCli(DeleteCommand(root)) == Some(Runner.Cli("delete", RootWords(root)))
  {
    SpelledInterfaces();
    SpelledServices();
    assert Spelling(root, RootWords(root));
    SpellingRuns(root, RootWords(root));
  }

  // ---- which roots are accepted ----

  // The paths that may be reset.
  const PATHS: seq<seq<string>> := [
    ["interfaces", "bridge"], ["interfaces", "bridge", "br0"], ["nat", "source"], ["service", "dhcp-server"],
    ["service", "dns", "forwarding"], ["service", "ssh"]]

  predicate Unquoted(s: string) {
    '\'' !in s && '"' !in s
  }

  lemma {:induction false} FieldsScanned(tokens: seq<string>, field: string, s: string)
    requires Unquoted(s)
    ensures var st := Tokenizer.ScanText(Tokenizer.Scan(tokens, field, false, false, field != []), s);
      !st.Quoted() && st.Flush().tokens == tokens + FieldsFrom(field, s)
    decreases |s|
  {
    var st := Tokenizer.Scan(tokens, field, false, false, field != []);
    if s == [] {
      assert field == [] ==> tokens + [] == tokens;
    } else {
      assert s[0] in s;
      var next := st.Next(s[0]);
      FieldsScanned(next.tokens, next.current, s[1..]);
      if Text.IsSpace(s[0]) && field != [] {
        assert tokens + [field] + FieldsFrom([], s[1..]) == tokens + ([field] + FieldsFrom([], s[1..]));
      }
    }
  }

  // Where there are no quotes, the fields of a text are its tokens.
  lemma FieldsAreTokens(s: string)
    requires Unquoted(s)
    ensures Tokenizer.Tokenize(s) == Some(FieldsFrom([], s))
  {
    FieldsScanned([], [], s);
    assert [] + FieldsFrom([], s) == FieldsFrom([], s);
  }

  // Spaces around a text make no difference.
  lemma TrimmedTokens(s: string)
    ensures Tokenizer.Tokenize(Text.TrimSpace(s)) == Tokenizer.Tokenize(s)
  {
    var i, j := Text.TrimCuts(s);
    var START := Tokenizer.START;
    assert s == s[..i] + (s[i..j] + s[j..]);
    Tokenizer.ScanConcat(START, s[..i], s[i..j] + s[j..]);
    Grammar.ScanGap(START, s[..i]);
    Tokenizer.ScanConcat(START, s[i..j], s[j..]);
    EndSpaces(Tokenizer.ScanText(START, s[i..j]), s[j..]);
  }

  lemma {:induction false} EndSpaces(st: Tokenizer.Scan, gap: string)
    requires Text.Blank(gap)
    ensures var end := Tokenizer.ScanText(st, gap);
      end.Quoted() == st.Quoted() && (!st.Quoted() ==> end.Flush() == st.Flush())
  {
    if st.Quoted() {
      QuotedSpaces(st, gap);
    } else {
      Grammar.ScanGap(st, gap);
    }
  }

  lemma {:induction false} QuotedSpaces(st: Tokenizer.Scan, gap: string)
    requires Text.Blank(gap) && st.Quoted()
    ensures Tokenizer.ScanText(st, gap).Quoted()
    decreases |gap|
  {
    if gap != "" {
      assert gap[0] in gap;
      QuotedSpaces(st.Next(gap[0]), gap[1..]);
    }
  }

  lemma {:induction false} FieldsSolid(field: string, s: string)
    requires forall c | c in field :: !Text.IsSpace(c)
    ensures forall w | w in FieldsFrom(field, s) :: w != "" && forall c | c in w :: !Text.IsSpace(c)
    decreases |s|
  {
    if s != [] {
      FieldsSolid(if Text.IsSpace(s[0]) then [] else field + [s[0]], s[1..]);
    }
  }

  lemma {:induction false} FieldsKeep(field: string, s: string, c: char)
    requires !Text.IsSpace(c) && (c in field || c in s)
    ensures exists w :: w in FieldsFrom(field, s) && c in w
    decreases |s|
  {
    if s == [] {
      assert field in FieldsFrom(field, s);
    } else if !Text.IsSpace(s[0]) {
      FieldsKeep(field + [s[0]], s[1..], c);
    } else if field == [] || c !in field {
      FieldsKeep([], s[1..], c);
      var w :| w in FieldsFrom([], s[1..]) && c in w;
      assert w in FieldsFrom(field, s);
    } else {
      assert field in FieldsFrom(field, s);
    }
  }

  lemma {:induction false} JoinKeeps(words: seq<string>, w: string, c: char)
    requires w in words && c in w
    ensures c in Text.Join(words, ' ')
  {
    if |words| > 1 && w != words[0] {
      JoinKeeps(words[1..], w, c);
    }
  }

  // A root with a quote is no allowed one.
  lemma NormalKeeps(root: string, c: char)
    requires c in root && !Text.IsSpace(c)
    ensures c in NormalizeRoot(root)
  {
    TrimKeepsSolid(root, c);
    var t := Text.TrimSpace(root);
    FieldsKeep([], t, c);
    var w :| w in FieldsFrom([], t) && c in w;
    JoinKeeps(FieldsFrom([], t), w, c);
  }

  lemma TrimKeepsSolid(s: string, c: char)
    requires c in s && !Text.IsSpace(c)
    ensures c in Text.TrimSpace(s)
  {
    var i, j := Text.TrimCuts(s);
    assert s == s[..i] + s[i..j] + s[j..];
    assert c !in s[..i] && c !in s[j..];
  }

  lemma JoinedWords(words: seq<string>, others: seq<string>)
    requires words != [] && others != [] && Text.Join(words, ' ') == Text.Join(others, ' ')
    requires forall w | w in words :: ' ' !in w
    requires forall w | w in others :: ' ' !in w
    ensures words == others
  {
    Text.SplitJoin(words, ' ');
    Text.SplitJoin(others, ' ');
  }

  // A normalized root is the joined words of its text.
  lemma NormalTokens(root: string) returns (words: seq<string>)
    requires Unquoted(root)
    ensures Tokenizer.Tokenize(root) == Some(words) && NormalizeRoot(root) == Text.Join(words, ' ')
    ensures forall w | w in words :: w != "" && ' ' !in w
  {
    var t := Text.TrimSpace(root);
    words := FieldsFrom([], t);
    Text.TrimSpaceShape(root);
    FieldsAreTokens(t);
    TrimmedTokens(root);
    FieldsSolid([], t);
  }

  lemma RootJoined(root: string)
    requires IsAllowedRoot(root)
    ensures RootWords(root) in PATHS && Text.Join(RootWords(root), ' ') == root
    ensures forall w | w in RootWords(root) :: ' ' !in w
  {
    RootIndexed(root);
    SpelledInterfaces();
    SpelledServices();
    assert Spelling(root, RootWords(root));
    SpellingJoins(root, RootWords(root));
  }

  lemma RootIndexed(root: string)
    requires IsAllowedRoot(root)
    ensures RootWords(root) in PATHS
  {
    assert PATHS[0] in PATHS && PATHS[1] in PATHS && PATHS[2] in PATHS;
    assert PATHS[3] in PATHS && PATHS[4] in PATHS && PATHS[5] in PATHS;
  }

  lemma SpellingJoins(root: string, w: seq<string>)
    requires Spelling(root, w)
    ensures Text.Join(w, ' ') == root
    ensures forall x | x in w :: ' ' !in x
  {
    PlainSolid(w[0]);
    PlainSolid(w[1]);
    if |w| == 3 {
      PlainSolid(w[2]);
      assert w[1..] == [w[1], w[2]] && w[1..][1..] == [w[2]];
      assert Text.Join(w[1..], ' ') == w[1] + [' '] + w[2];
    } else {
      assert w[1..] == [w[1]];
    }
  }

  lemma PlainSolid(w: string)
    requires IsPlainWord(w)
    ensures ' ' !in w
  {
  }

  lemma PathRoot(words: seq<string>) returns (root: string)
    requires words in PATHS
    ensures IsAllowedRoot(root) && RootWords(root) == words
  {
    if words == PATHS[0] { root := BRIDGE; }
    else if words == PATHS[1] { root := BRIDGE_BR0; }
    else if words == PATHS[2] { root := NAT_SOURCE; }
    else if words == PATHS[3] { root := DHCP_SERVER; }
    else if words == PATHS[4] { root := DNS_FORWARDING; }
    else { root := SSH; }
  }

  lemma NoQuotes(root: string)
    requires IsAllowedRoot(root) || root == "/"
    ensures Unquoted(root)
  {
  }

  // A reset root is accepted exactly if its words are one of the paths, and then its
  // delete command deletes that path.
  lemma RootExactly(root: string)
    ensures RootError(NormalizeRoot(root)).None?
      <==> Unquoted(root) && Tokenizer.Tokenize(root).Some? && Tokenizer.Tokenize(root).value in PATHS
    ensures RootError(NormalizeRoot(root)).None? ==>
      Runner.SplitCli(DeleteCommand(NormalizeRoot(root))) == Some(Runner.Cli("delete", Tokenizer.Tokenize(root).value))
  {
    var normal := NormalizeRoot(root);
    if !Unquoted(root) {
      NormalKeeps(root, if '\'' in root then '\'' else '"');
      if IsAllowedRoot(normal) {
        NoQuotes(normal);
      }
    } else {
      var words := NormalTokens(root);
      NotEmptyRoots();
      if IsAllowedRoot(normal) {
        RootJoined(normal);
        JoinedWords(words, RootWords(normal));
        DeleteIsRun(normal);
      }
      if words in PATHS {
        var allowed := PathRoot(words);
        RootJoined(allowed);
      }
    }
  }

  lemma NotEmptyRoots()
    ensures !IsAllowedRoot("") && !IsAllowedRoot("/")
    ensures forall words | words in PATHS :: words != []
  {
  }

  // The two other errors: nothing is named, or everything is.
  lemma EmptyExactly(root: string)
    ensures RootError(NormalizeRoot(root)) == Some(EmptyRoot) <==> Text.Blank(root)
  {
    if Text.Blank(root) {
      Text.BlankExactly(root);
    } else {
      var c :| c in root && !Text.IsSpace(c);
      NormalKeeps(root, c);
    }
  }

  lemma FullExactly(root: string)
    ensures RootError(NormalizeRoot(root)) == Some(FullConfig)
      <==> Unquoted(root) && Tokenizer.Tokenize(root) == Some(["/"])
  {
    if !Unquoted(root) {
      NormalKeeps(root, if '\'' in root then '\'' else '"');
    } else {
      var words := NormalTokens(root);
      if NormalizeRoot(root) == "/" {
        assert Text.Join(["/"], ' ') == "/";
        JoinedWords(words, ["/"]);
      }
    }
  }
}
