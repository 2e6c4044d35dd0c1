// Printed lines are apply input: what the templates print, the parser accepts line by
// line, unless a description contains one of the characters it forbids.
module RoundTrip {
  import opened Wrappers
  import opened Tokenizer
  import Text
  import Runner
  import Parser
  import opened RenderData
  import opened Templates

  // ---- one line ----

  predicate Dirty(s: string) {
    Text.ContainsAny(s, Runner.FORBIDDEN)
  }

  ghost predicate DirtyLine(line: Line) {
    exists w | w in line :: Dirty(w.text)
  }

  predicate Unbroken(s: string) {
    '\n' !in s && '\r' !in s
  }

  // A printable line whose words are a valid set path.
  ghost predicate GoodLine(line: Line) {
    && Printables(line) && line[0].text == "set" && Parser.ValidSetPath(Texts(line))
    && forall w | w in line :: Unbroken(w.text)
  }

  lemma ContainsConcat(a: string, b: string, chars: string)
    ensures Text.ContainsAny(a + b, chars) <==> Text.ContainsAny(a, chars) || Text.ContainsAny(b, chars)
  {
    if Text.ContainsAny(a, chars) {
      var i :| 0 <= i < |a| && a[i] in chars;
      assert (a + b)[i] in chars;
    }
    if Text.ContainsAny(b, chars) {
      var i :| 0 <= i < |b| && b[i] in chars;
      assert (a + b)[|a| + i] in chars;
    }
  }

  lemma WordContains(w: Word, chars: string)
    requires ' ' !in chars && '\'' !in chars
    ensures Text.ContainsAny(w.Print(), chars) <==> Text.ContainsAny(w.text, chars)
  {
    ContainsConcat("'" + w.text, "'", chars);
    ContainsConcat("'", w.text, chars);
  }

  // Some word contains one of the characters.
  ghost predicate WordsContain(line: Line, chars: string) {
    exists w | w in line :: Text.ContainsAny(w.text, chars)
  }

  lemma WordsAppend(front: Line, w: Word, chars: string)
    ensures WordsContain(front + [w], chars) <==> WordsContain(front, chars) || Text.ContainsAny(w.text, chars)
  {
    if Text.ContainsAny(w.text, chars) {
      assert w in front + [w];
    }
  }

  // Appending a printed word.
  lemma TextAppend(text: string, w: Word, chars: string)
    requires ' ' !in chars && '\'' !in chars
    ensures Text.ContainsAny(text + " " + w.Print(), chars)
      <==> Text.ContainsAny(text, chars) || Text.ContainsAny(w.text, chars)
  {
    WordContains(w, chars);
    ContainsConcat(text + " ", w.Print(), chars);
    ContainsConcat(text, " ", chars);
  }

  lemma OneWordContains(w: Word, chars: string)
    requires ' ' !in chars && '\'' !in chars
    ensures Text.ContainsAny(w.Print(), chars) <==> WordsContain([w], chars)
  {
    WordContains(w, chars);
    WordsAppend([], w, chars);
    assert [] + [w] == [w];
  }

  lemma {:induction false} LineContains(line: Line, chars: string)
    requires line != [] && ' ' !in chars && '\'' !in chars
    ensures Text.ContainsAny(PrintWords(line), chars) <==> WordsContain(line, chars)
  {
    var n := |line| - 1;
    if n == 0 {
      OneWordContains(line[0], chars);
      assert line == [line[0]];
    } else {
      LineContains(line[..n], chars);
      TextAppend(PrintWords(line[..n]), line[n], chars);
      WordsAppend(line[..n], line[n], chars);
      assert line == line[..n] + [line[n]];
    }
  }

  lemma {:induction false} LineEnds(line: Line)
    requires Printables(line)
    ensures var text := PrintWords(line);
      && line[0].text != [] && text != [] && text[0] == line[0].text[0]
      && !Text.IsSpace(text[0]) && !Text.IsSpace(text[|text| - 1])
  {
    var n := |line| - 1;
    assert line[n] in line;
    LastOfWord(line[n]);
    if n > 0 {
      FrontPrintable(line);
      LineEnds(line[..n]);
    }
  }

  lemma LastOfWord(w: Word)
    requires w.Printable()
    ensures w.Print() != [] && !Text.IsSpace(w.Print()[|w.Print()| - 1])
    ensures w.Bare? ==> !Text.IsSpace(w.Print()[0])
  {
    if w.Bare? {
      assert w.text[|w.text| - 1] in w.text && w.text[0] in w.text;
    }
  }

  lemma LineUnbroken(line: Line)
    requires GoodLine(line)
    ensures Unbroken(PrintWords(line))
  {
    LineContains(line, "\n\r");
    assert "\n\r"[0] == '\n' && "\n\r"[1] == '\r';
    forall w | w in line
      ensures !Text.ContainsAny(w.text, "\n\r")
    {
    }
    forall i | 0 <= i < |PrintWords(line)|
      ensures PrintWords(line)[i] !in "\n\r"
    {
    }
  }

  lemma JudgeText(text: string, tokens: seq<string>)
    requires text != [] && text[0] == 's' && !Text.IsSpace(text[|text| - 1])
    requires Tokenize(text) == Some(tokens) && tokens != [] && tokens[0] == "set" && Parser.ValidSetPath(tokens)
    ensures Parser.Judge(text) == if Dirty(text) then Parser.Rejected else Parser.Accepted(text)
  {
    Text.TrimSpaceFixed(text);
    assert !Parser.IsForbiddenOperation(tokens[0]);
  }

  lemma LineText(line: Line)
    requires GoodLine(line)
    ensures var text := PrintWords(line);
      && text != [] && text[0] == 's' && !Text.IsSpace(text[|text| - 1])
      && (Dirty(text) <==> DirtyLine(line))
  {
    LineEnds(line);
    LineContains(line, Runner.FORBIDDEN);
  }

  // The parser accepts a printed line as it is, unless it contains a forbidden
  // character.
  lemma JudgeLine(line: Line)
    requires GoodLine(line)
    ensures Parser.Judge(PrintWords(line))
      == if DirtyLine(line) then Parser.Rejected else Parser.Accepted(PrintWords(line))
  {
    LineText(line);
    TokenizePrint(line);
    JudgeText(PrintWords(line), Texts(line));
  }

  lemma WordUnbroken(w: Word, chars: string)
    requires w.Printable() && chars == "\r\n"
    ensures !Text.ContainsAny(w.text, chars)
  {
    forall i | 0 <= i < |w.text|
      ensures w.text[i] !in chars
    {
      assert w.text[i] in w.text;
    }
  }

  lemma PrintableUnbroken(line: Line, chars: string)
    requires Printables(line) && chars == "\r\n"
    ensures !Text.ContainsAny(PrintWords(line), chars)
  {
    forall w | w in line
      ensures !Text.ContainsAny(w.text, chars)
    {
      WordUnbroken(w, chars);
    }
    LineContains(line, chars);
  }

  lemma PrintedText(line: Line)
    requires Printables(line)
    ensures var text := PrintWords(line);
      text != [] && Text.Trimmed(text) && !Text.ContainsAny(text, "\r\n") && (Dirty(text) <==> DirtyLine(line))
  {
    LineEnds(line);
    PrintableUnbroken(line, "\r\n");
    LineContains(line, Runner.FORBIDDEN);
  }

  lemma SplitText(text: string, tokens: seq<string>)
    requires text != [] && Text.Trimmed(text) && !Text.ContainsAny(text, "\r\n")
    requires Tokenize(text) == Some(tokens)
    ensures Runner.SplitCli(text)
      == if !Dirty(text) && |tokens| >= 2 && (tokens[0] == "set" || tokens[0] == "delete")
        then Some(Runner.Cli(tokens[0], tokens[1..])) else None
  {
    Text.TrimSpaceFixed(text);
  }

  // The runner splits a printed line into its words, and refuses it exactly if it is
  // no set or delete, has no path, or contains a forbidden character.
  lemma PrintedSplits(line: Line)
    requires Printables(line)
    ensures Runner.SplitCli(PrintWords(line))
      == if !DirtyLine(line) && |line| >= 2 && (line[0].text == "set" || line[0].text == "delete")
        then Some(Runner.Cli(line[0].text, Texts(line)[1..])) else None
  {
    PrintedText(line);
    TokenizePrint(line);
    SplitText(PrintWords(line), Texts(line));
  }

  // ---- many lines ----

  ghost predicate AllGood(lines: seq<Line>) {
    forall i | 0 <= i < |lines| :: GoodLine(lines[i])
  }

  ghost predicate AnyDirty(lines: seq<Line>) {
    exists i | 0 <= i < |lines| :: DirtyLine(lines[i])
  }

  predicate AllUnbroken(texts: seq<string>) {
    forall i | 0 <= i < |texts| :: Unbroken(texts[i])
  }

  lemma PrintedUnbroken(lines: seq<Line>)
    requires AllGood(lines)
    ensures AllUnbroken(Printed(lines))
  {
    forall i | 0 <= i < |lines|
      ensures Unbroken(Print(lines[i]))
    {
      LineUnbroken(lines[i]);
    }
  }

  lemma {:induction false} JoinHas(texts: seq<string>, sep: char, c: char)
    requires c != sep && forall i | 0 <= i < |texts| :: c !in texts[i]
    ensures c !in Text.Join(texts, sep)
  {
    if |texts| > 1 {
      JoinHas(texts[1..], sep, c);
    }
  }

  // Splitting a joined text into lines gives the lines back.
  lemma LinesOfJoin(texts: seq<string>)
    requires texts != [] && AllUnbroken(texts)
    ensures Text.Split(Text.UnixNewlines(Text.Join(texts, '\n')), '\n') == texts
  {
    JoinHas(texts, '\n', '\r');
    Text.NewlinesFixed(Text.Join(texts, '\n'));
    Text.SplitJoin(texts, '\n');
  }

  // The lines that the parser sees.
  lemma ParserLines(texts: seq<string>)
    requires AllUnbroken(texts)
    ensures Parser.Lines(Unlines(texts)) == texts + [""]
  {
    if texts == [] {
      assert Parser.Lines("") == [""];
    } else {
      Text.JoinAppend(texts, "", '\n');
      assert Text.Join(texts, '\n') + ['\n'] + "" == Text.Join(texts, '\n') + "\n";
      LinesOfJoin(texts + [""]);
      JoinHas(texts + [""], '\n', '\r');
      Text.NewlinesFixed(Unlines(texts));
    }
  }

  ghost predicate AsIs(text: string) {
    Parser.Judge(text) == Parser.Accepted(text)
  }

  lemma {:induction false} CommandsAsIs(texts: seq<string>, judge: string -> Parser.LineVerdict)
    requires forall i | 0 <= i < |texts| :: judge(texts[i]) == Parser.Accepted(texts[i])
    ensures Parser.CommandsBy(texts, judge) == texts
  {
    if texts != [] {
      var n := |texts| - 1;
      CommandsAsIs(texts[..n], judge);
      assert texts == texts[..n] + [texts[n]];
    }
  }

  lemma CommandsEnd(texts: seq<string>, judge: string -> Parser.LineVerdict)
    requires judge("") == Parser.Skipped
    ensures Parser.CommandsBy(texts + [""], judge) == Parser.CommandsBy(texts, judge)
  {
    assert (texts + [""])[..|texts|] == texts;
  }

  lemma EmptySkipped()
    ensures Parser.Judge("") == Parser.Skipped
  {
  }

  lemma NothingAccepted(commands: seq<string>)
    ensures !Parser.Verdict(Unlines([]), Ok(commands))
  {
    ParserLines([]);
    EmptySkipped();
    CommandsEnd([], Parser.Judge);
  }

  lemma AcceptedTexts(texts: seq<string>)
    requires AllUnbroken(texts) && texts != [] && forall i | 0 <= i < |texts| :: AsIs(texts[i])
    ensures Parser.Verdict(Unlines(texts), Ok(texts))
  {
    ParserLines(texts);
    EmptySkipped();
    assert forall i | 0 <= i < |texts| :: AsIs(texts[i]);
    CommandsAsIs(texts, Parser.Judge);
    CommandsEnd(texts, Parser.Judge);
    CleanTexts(texts);
  }

  lemma CleanTexts(texts: seq<string>)
    requires forall i | 0 <= i < |texts| :: AsIs(texts[i])
    ensures Parser.Clean(texts + [""])
  {
    EmptySkipped();
    forall raw | raw in texts + [""]
      ensures Parser.Judge(raw) != Parser.Rejected
    {
      if raw in texts {
        var i :| 0 <= i < |texts| && texts[i] == raw;
        assert AsIs(texts[i]);
      }
    }
  }

  // The first line that is not accepted is reported.
  lemma {:induction false} RejectedTexts(texts: seq<string>, i: nat)
    requires AllUnbroken(texts) && i < |texts| && Parser.Judge(texts[i]) == Parser.Rejected
    ensures exists n: nat :: Parser.Verdict(Unlines(texts), Err(Parser.InvalidCommand(n)))
  {
    if j: nat :| j < i && Parser.Judge(texts[j]) == Parser.Rejected {
      RejectedTexts(texts, j);
    } else {
      ParserLines(texts);
      assert (texts + [""])[..i] == texts[..i];
      assert Parser.Verdict(Unlines(texts), Err(Parser.InvalidCommand(i + 1)));
    }
  }

  // Printed lines are accepted exactly if none of them contains a forbidden character.
  lemma PrintedLines(lines: seq<Line>)
    requires AllGood(lines) && lines != []
    ensures Parser.Verdict(Unlines(Printed(lines)), Ok(Printed(lines))) <==> !AnyDirty(lines)
    ensures AnyDirty(lines) ==>
      exists n: nat :: Parser.Verdict(Unlines(Printed(lines)), Err(Parser.InvalidCommand(n)))
  {
    var texts := Printed(lines);
    PrintedUnbroken(lines);
    forall i | 0 <= i < |lines|
      ensures Parser.Judge(texts[i]) == if DirtyLine(lines[i]) then Parser.Rejected else Parser.Accepted(texts[i])
    {
      JudgeLine(lines[i]);
    }
    if AnyDirty(lines) {
      var i :| 0 <= i < |lines| && DirtyLine(lines[i]);
      RejectedTexts(texts, i);
      var n: nat :| Parser.Verdict(Unlines(texts), Err(Parser.InvalidCommand(n)));
      if Parser.Verdict(Unlines(texts), Ok(texts)) {
        Parser.VerdictUnique(Unlines(texts), Ok(texts), Err(Parser.InvalidCommand(n)));
      }
    } else {
      assert forall i | 0 <= i < |lines| :: AsIs(texts[i]);
      AcceptedTexts(texts);
    }
  }

  // ---- sections ----

  lemma {:induction false} FilterAll(texts: seq<string>, p: string -> bool)
    requires forall i | 0 <= i < |texts| :: p(texts[i])
    ensures Filter(texts, p) == texts
  {
    if texts != [] {
      var n := |texts| - 1;
      FilterAll(texts[..n], p);
      assert texts == texts[..n] + [texts[n]];
    }
  }

  predicate All(texts: seq<string>, p: string -> bool) {
    forall i | 0 <= i < |texts| :: p(texts[i])
  }

  lemma FilterLast(front: seq<string>, p: string -> bool)
    requires !p("")
    ensures Filter(front + [""], p) == Filter(front, p)
  {
    assert (front + [""])[..|front|] == front;
  }

  // A run of lines with property p after other lines.
  lemma FilterRun(front: seq<string>, run: seq<string>, p: string -> bool)
    requires All(run, p)
    ensures Filter(front + run, p) == Filter(front, p) + run
  {
    FilterAll(run, p);
    FilterConcat(front, run, p);
  }

  lemma FilterFirst(run: seq<string>, p: string -> bool)
    requires !p("") && All(run, p)
    ensures Filter([""] + run, p) == run
  {
    FilterLast([], p);
    assert [] + [""] == [""];
    FilterRun([""], run, p);
  }

  lemma SectionOf(raw: seq<string>, p: string -> bool, kept: seq<string>)
    requires raw != [] && AllUnbroken(raw) && Filter(raw, p) == kept
    ensures SectionWith(Text.Join(raw, '\n'), p) == Unlines(kept)
  {
    LinesOfJoin(raw);
  }

  lemma InterfaceSection(run: seq<string>, p: string -> bool)
    requires !p("") && All(run, p) && AllUnbroken(run)
    ensures SectionWith(Text.Join(run + ["", ""], '\n'), p) == Unlines(run)
  {
    var raw := run + [""];
    FilterAll(run, p);
    FilterLast(run, p);
    FilterLast(raw, p);
    assert raw + [""] == run + ["", ""];
    SectionOf(run + ["", ""], p, run);
  }

  lemma NatSection(run: seq<string>, p: string -> bool)
    requires !p("") && All(run, p) && AllUnbroken(run)
    ensures SectionWith(Text.Join([""] + run + [""], '\n'), p) == Unlines(run)
  {
    FilterFirst(run, p);
    FilterLast([""] + run, p);
    SectionOf([""] + run + [""], p, run);
  }

  lemma FilterRuns(a: seq<string>, b: seq<string>, c: seq<string>, p: string -> bool)
    requires !p("") && All(a, p) && All(b, p) && All(c, p)
    ensures Filter([""] + a + [""] + b + [""] + c + [""], p) == a + b + c
  {
    var one := [""] + a;
    var two := one + [""] + b;
    var three := two + [""] + c;
    FilterFirst(a, p);
    FilterLast(one, p);
    FilterRun(one + [""], b, p);
    FilterLast(two, p);
    FilterRun(two + [""], c, p);
    FilterLast(three, p);
  }

  lemma ServiceSection(a: seq<string>, b: seq<string>, c: seq<string>, p: string -> bool)
    requires !p("") && All(a, p) && All(b, p) && All(c, p)
    requires AllUnbroken(a) && AllUnbroken(b) && AllUnbroken(c)
    ensures SectionWith(Text.Join([""] + a + [""] + b + [""] + c + [""], '\n'), p) == Unlines(a + b + c)
  {
    FilterRuns(a, b, c, p);
    SectionOf([""] + a + [""] + b + [""] + c + [""], p, a + b + c);
  }

  lemma {:induction false} JoinConcat(a: seq<string>, b: seq<string>)
    requires a != [] && b != []
    ensures Text.Join(a + b, '\n') == Text.Join(a, '\n') + "\n" + Text.Join(b, '\n')
  {
    if |a| == 1 {
      assert (a + b)[1..] == b;
    } else {
      JoinConcat(a[1..], b);
      assert (a + b)[1..] == a[1..] + b;
    }
  }

  lemma UnlinesConcat(a: seq<string>, b: seq<string>)
    ensures Unlines(a + b) == Unlines(a) + Unlines(b)
  {
    if a == [] {
      assert a + b == b;
    } else if b == [] {
      assert a + b == a;
    } else {
      JoinConcat(a, b);
    }
  }

  lemma GoodPrinting(lines: seq<Line>)
    requires AllGood(lines)
    ensures Printing(lines)
  {
    forall i, j | 0 <= i < |lines| && 0 <= j < |lines[i]|
      ensures !Refused(lines[i][j])
    {
      assert GoodLine(lines[i]) && lines[i][j] in lines[i];
    }
  }

  lemma PrintedNotBlank(lines: seq<Line>)
    requires AllGood(lines)
    ensures All(Printed(lines), NotBlank)
  {
    forall i | 0 <= i < |lines|
      ensures NotBlank(Print(lines[i]))
    {
      LineEnds(lines[i]);
      Text.TrimSpaceFixed(Print(lines[i]));
    }
  }

  lemma BlankIsBlank()
    ensures !NotBlank("")
  {
  }

  lemma PrintedConcat(a: seq<Line>, b: seq<Line>)
    ensures Printed(a + b) == Printed(a) + Printed(b)
  {
  }

  lemma ServicesRendered(s: ServiceSection, p: string -> bool)
    requires AllGood(ServiceLines(s)) && !p("") && All(Printed(ServiceLines(s)), p)
    ensures SectionWith(ServiceText(s), p) == Unlines(Printed(ServiceLines(s)))
  {
    var a, b, c := AllDhcpLines(s.lans), DnsLines(s.lans), SshLines(s);
    GoodParts(a + b, c);
    GoodParts(a, b);
    PrintedUnbroken(a);
    PrintedUnbroken(b);
    PrintedUnbroken(c);
    PrintedConcat(a + b, c);
    PrintedConcat(a, b);
    AllParts(Printed(a) + Printed(b), Printed(c), p);
    AllParts(Printed(a), Printed(b), p);
    ServiceSection(Printed(a), Printed(b), Printed(c), p);
  }

  lemma AllParts(a: seq<string>, b: seq<string>, p: string -> bool)
    requires All(a + b, p)
    ensures All(a, p) && All(b, p)
  {
    assert forall i | 0 <= i < |a| :: (a + b)[i] == a[i];
    assert forall i | 0 <= i < |b| :: (a + b)[|a| + i] == b[i];
  }

  lemma SectionsRendered(d: Data, p: string -> bool)
    requires AllGood(AllLines(d)) && !p("") && All(Printed(AllLines(d)), p)
    ensures InterfaceText(d.interfaces).Some?
    ensures SectionWith(InterfaceText(d.interfaces).value, p) + SectionWith(ServiceText(d.services), p)
      + SectionWith(NatText(d.rules), p) == Unlines(Printed(AllLines(d)))
  {
    var i, s, r := InterfaceLines(d.interfaces), ServiceLines(d.services), AllNatLines(d.rules);
    GoodParts(i + s, r);
    GoodParts(i, s);
    GoodPrinting(i);
    PrintedUnbroken(i);
    PrintedUnbroken(r);
    PrintedConcat(i + s, r);
    PrintedConcat(i, s);
    AllParts(Printed(i) + Printed(s), Printed(r), p);
    AllParts(Printed(i), Printed(s), p);
    InterfaceSection(Printed(i), p);
    ServicesRendered(d.services, p);
    NatSection(Printed(r), p);
    UnlinesConcat(Printed(i) + Printed(s), Printed(r));
    UnlinesConcat(Printed(i), Printed(s));
  }

  // Rendering cannot fail, and prints every line, in order, and nothing else.
  lemma RenderedText(d: Data)
    requires AllGood(AllLines(d))
    ensures Rendered(d) == Some(Unlines(Printed(AllLines(d))))
  {
    PrintedNotBlank(AllLines(d));
    BlankIsBlank();
    SectionsRendered(d, NotBlank);
  }

  lemma GoodParts(a: seq<Line>, b: seq<Line>)
    ensures AllGood(a + b) <==> AllGood(a) && AllGood(b)
    ensures AnyDirty(a + b) <==> AnyDirty(a) || AnyDirty(b)
  {
    assert forall i | 0 <= i < |a| :: (a + b)[i] == a[i];
    assert forall i | 0 <= i < |b| :: (a + b)[|a| + i] == b[i];
  }
}
