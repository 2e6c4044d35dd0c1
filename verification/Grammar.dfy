// What a command line is: words between spaces, each spelled out of plain characters
// and quoted runs.  The tokenizer reads exactly these lines, and reads them so.
module Grammar {
  import opened Wrappers
  import Text
  import opened Tokenizer

  // ---- spelling ----

  // A plain character, or a run between quotes.
  datatype Piece = Plainly(c: char) | Single(text: string) | Double(text: string) {
    predicate Valid() {
      match this
      case Plainly(c) => c != '\'' && c != '"' && !Text.IsSpace(c)
      case Single(text) => '\'' !in text
      case Double(text) => '"' !in text
    }

    function Spelled(): string {
      match this
      case Plainly(c) => [c]
      case Single(text) => "'" + text + "'"
      case Double(text) => "\"" + text + "\""
    }

    function Means(): string {
      if Plainly? then [c] else text
    }
  }

  function Spell(pieces: seq<Piece>): string {
    if pieces == [] then "" else Spell(pieces[..|pieces| - 1]) + pieces[|pieces| - 1].Spelled()
  }

  function Means(pieces: seq<Piece>): string {
    if pieces == [] then "" else Means(pieces[..|pieces| - 1]) + pieces[|pieces| - 1].Means()
  }

  ghost predicate AllValid(pieces: seq<Piece>) {
    forall i | 0 <= i < |pieces| :: pieces[i].Valid()
  }

  // A word and the spaces before it.
  datatype Spaced = Spaced(gap: string, pieces: seq<Piece>)

  ghost predicate Layout(words: seq<Spaced>) {
    forall i | 0 <= i < |words| ::
      Text.Blank(words[i].gap) && (i > 0 ==> words[i].gap != "") && words[i].pieces != [] && AllValid(words[i].pieces)
  }

  function Write(words: seq<Spaced>): string {
    if words == [] then ""
    else
      var n := |words| - 1;
      Write(words[..n]) + words[n].gap + Spell(words[n].pieces)
  }

  function Tokens(words: seq<Spaced>): seq<string> {
    seq(|words|, i requires 0 <= i < |words| => Means(words[i].pieces))
  }

  // ---- what is spelled is read ----

  lemma ScanOne(st: Scan, c: char)
    ensures ScanText(st, [c]) == st.Next(c)
  {
  }

  lemma ScanMore(st: Scan, s: string, c: char)
    ensures ScanText(st, s + [c]) == ScanText(st, s).Next(c)
  {
    ScanConcat(st, s, [c]);
    ScanOne(ScanText(st, s), c);
  }

  lemma {:induction false} ScanGap(st: Scan, gap: string)
    requires Text.Blank(gap) && !st.Quoted()
    ensures ScanText(st, gap) == if gap == "" then st else st.Flush()
  {
    if gap != "" {
      var n := |gap| - 1;
      assert gap == gap[..n] + [gap[n]] && gap[n] in gap;
      ScanGap(st, gap[..n]);
      ScanMore(st, gap[..n], gap[n]);
    }
  }

  lemma ScanPiece(st: Scan, p: Piece)
    requires p.Valid() && !st.Quoted()
    ensures ScanText(st, p.Spelled()) == st.(current := st.current + p.Means(), started := true)
  {
    match p
    case Plainly(c) => ScanOne(st, c);
    case Single(text) => ScanRun(st, '\'', text);
    case Double(text) => ScanRun(st, '"', text);
  }

  lemma ScanRun(st: Scan, quote: char, text: string)
    requires (quote == '\'' || quote == '"') && quote !in text && !st.Quoted()
    ensures ScanText(st, [quote] + text + [quote]) == st.(current := st.current + text, started := true)
  {
    ScanOne(st, quote);
    ScanInside(st.Next(quote), quote, text);
    ScanConcat(st, [quote], text);
    ScanMore(st, [quote] + text, quote);
  }

  lemma {:induction false} ScanInside(st: Scan, quote: char, text: string)
    requires quote !in text && st.started
    requires (quote == '\'' && st.inSingle && !st.inDouble) || (quote == '"' && st.inDouble && !st.inSingle)
    ensures ScanText(st, text) == st.(current := st.current + text)
  {
    if text == "" {
      assert st.current + text == st.current;
    } else {
      var n := |text| - 1;
      assert text == text[..n] + [text[n]];
      ScanInside(st, quote, text[..n]);
      ScanMore(st, text[..n], text[n]);
      assert st.current + text[..n] + [text[n]] == st.current + text;
    }
  }

  lemma {:induction false} ScanPieces(st: Scan, pieces: seq<Piece>)
    requires AllValid(pieces) && !st.Quoted()
    ensures ScanText(st, Spell(pieces))
      == if pieces == [] then st else st.(current := st.current + Means(pieces), started := true)
  {
    if pieces != [] {
      var n := |pieces| - 1;
      ScanPieces(st, pieces[..n]);
      if n == 0 {
        ScanPiece(st, pieces[0]);
        assert Spell(pieces) == pieces[0].Spelled() && Means(pieces) == pieces[0].Means();
      } else {
        var mid := st.(current := st.current + Means(pieces[..n]), started := true);
        ScanPiece(mid, pieces[n]);
        ScanChain(st, mid, Spell(pieces[..n]), pieces[n].Spelled(), Means(pieces[..n]), pieces[n].Means());
      }
    }
  }

  lemma ScanChain(st: Scan, mid: Scan, text: string, more: string, meaning: string, rest: string)
    requires ScanText(st, text) == mid == st.(current := st.current + meaning, started := true)
    requires ScanText(mid, more) == mid.(current := mid.current + rest, started := true)
    ensures ScanText(st, text + more) == st.(current := st.current + (meaning + rest), started := true)
  {
    ScanConcat(st, text, more);
    Chained(st, mid, ScanText(mid, more), meaning, rest);
  }

  lemma Chained(st: Scan, mid: Scan, end: Scan, meaning: string, rest: string)
    requires mid == st.(current := st.current + meaning, started := true)
    requires end == mid.(current := mid.current + rest, started := true)
    ensures end == st.(current := st.current + (meaning + rest), started := true)
  {
    assert st.current + meaning + rest == st.current + (meaning + rest);
  }

  lemma {:induction false} ScanWords(words: seq<Spaced>)
    requires Layout(words)
    ensures var st := ScanText(START, Write(words));
      !st.Quoted() && st.Flush() == START.(tokens := Tokens(words)) && (st.started <==> words != [])
  {
    if words == [] {
      assert Tokens(words) == [];
    } else {
      var n := |words| - 1;
      ScanWords(words[..n]);
      ScanNextWord(Write(words[..n]), Tokens(words[..n]), words[n]);
      assert Tokens(words) == Tokens(words[..n]) + [Means(words[n].pieces)];
    }
  }

  lemma ScanNextWord(text: string, tokens: seq<string>, w: Spaced)
    requires var st := ScanText(START, text);
      !st.Quoted() && st.Flush() == START.(tokens := tokens) && (st.started ==> w.gap != "")
    requires Text.Blank(w.gap) && w.pieces != [] && AllValid(w.pieces)
    ensures var st := ScanText(START, text + w.gap + Spell(w.pieces));
      !st.Quoted() && st.Flush() == START.(tokens := tokens + [Means(w.pieces)]) && st.started
  {
    ScanWord(ScanText(START, text), tokens, w);
    ScanConcat(START, text + w.gap, Spell(w.pieces));
    ScanConcat(START, text, w.gap);
  }

  lemma ScanWord(st: Scan, tokens: seq<string>, w: Spaced)
    requires !st.Quoted() && st.Flush() == START.(tokens := tokens) && (st.started ==> w.gap != "")
    requires Text.Blank(w.gap) && w.pieces != [] && AllValid(w.pieces)
    ensures ScanText(ScanText(st, w.gap), Spell(w.pieces))
      == Scan(tokens, Means(w.pieces), false, false, true)
  {
    ScanGap(st, w.gap);
    ScanPieces(ScanText(st, w.gap), w.pieces);
    assert [] + Means(w.pieces) == Means(w.pieces);
  }

  // ---- what is read was spelled ----

  datatype Open = Closed | Within(quote: char, text: string)

  // How far a line has been read: whole words, and the spaces, pieces and quoted run of
  // the next one.
  datatype Reading = Reading(words: seq<Spaced>, gap: string, pieces: seq<Piece>, open: Open)

  function OpenText(open: Open): string {
    if open.Closed? then "" else [open.quote] + open.text
  }

  function Written(r: Reading): string {
    Write(r.words) + r.gap + Spell(r.pieces) + OpenText(r.open)
  }

  ghost predicate Tidily(r: Reading) {
    && Layout(r.words) && Text.Blank(r.gap) && (r.words != [] ==> r.gap != "") && AllValid(r.pieces)
    && (r.open.Within? ==> (r.open.quote == '\'' || r.open.quote == '"') && r.open.quote !in r.open.text)
  }

  function StateOf(r: Reading): Scan {
    Scan(
      Tokens(r.words), Means(r.pieces) + (if r.open.Within? then r.open.text else ""),
      r.open.Within? && r.open.quote == '\'', r.open.Within? && r.open.quote == '"',
      r.pieces != [] || r.open.Within?)
  }

  function Step(r: Reading, c: char): Reading {
    if r.open.Within? then
      if c != r.open.quote then r.(open := Within(r.open.quote, r.open.text + [c]))
      else r.(pieces := r.pieces + [if c == '\'' then Single(r.open.text) else Double(r.open.text)], open := Closed)
    else if c == '\'' || c == '"' then r.(open := Within(c, ""))
    else if !Text.IsSpace(c) then r.(pieces := r.pieces + [Plainly(c)])
    else if r.pieces == [] then r.(gap := r.gap + [c])
    else Reading(r.words + [Spaced(r.gap, r.pieces)], [c], [], Closed)
  }

  lemma SpellMore(pieces: seq<Piece>, p: Piece)
    ensures Spell(pieces + [p]) == Spell(pieces) + p.Spelled() && Means(pieces + [p]) == Means(pieces) + p.Means()
  {
    assert (pieces + [p])[..|pieces|] == pieces;
  }

  lemma WriteMore(words: seq<Spaced>, w: Spaced)
    ensures Write(words + [w]) == Write(words) + w.gap + Spell(w.pieces)
    ensures Tokens(words + [w]) == Tokens(words) + [Means(w.pieces)]
  {
    assert (words + [w])[..|words|] == words;
  }

  lemma StepWritten(r: Reading, c: char)
    requires Tidily(r)
    ensures Written(Step(r, c)) == Written(r) + [c]
  {
    if r.open.Within? {
      WithinWritten(Write(r.words) + r.gap, r.pieces, r.open, c);
    } else {
      ClosedWritten(r, c);
    }
  }

  lemma ClosedWritten(r: Reading, c: char)
    requires Tidily(r) && r.open.Closed?
    ensures Written(Step(r, c)) == Written(r) + [c]
  {
    if c == '\'' || c == '"' {
      assert [c] + "" == [c];
    } else if !Text.IsSpace(c) {
      SpellMore(r.pieces, Plainly(c));
      Appended(Write(r.words) + r.gap, Spell(r.pieces), "", c);
    } else if r.pieces == [] {
      Appended(Write(r.words), r.gap, "", c);
    } else {
      WriteMore(r.words, Spaced(r.gap, r.pieces));
    }
  }

  lemma WithinWritten(front: string, pieces: seq<Piece>, open: Open, c: char)
    requires open.Within? && (open.quote == '\'' || open.quote == '"')
    ensures c != open.quote ==>
      front + Spell(pieces) + OpenText(Within(open.quote, open.text + [c]))
      == front + Spell(pieces) + OpenText(open) + [c]
    ensures c == open.quote ==>
      front + Spell(pieces + [if c == '\'' then Single(open.text) else Double(open.text)]) + OpenText(Closed)
      == front + Spell(pieces) + OpenText(open) + [c]
  {
    if c != open.quote {
      assert OpenText(Within(open.quote, open.text + [c])) == OpenText(open) + [c];
    } else {
      CloseWritten(pieces, open, c);
      Appended(front, Spell(pieces), OpenText(open), c);
    }
  }

  lemma Appended(a: string, b: string, d: string, c: char)
    ensures a + (b + (d + [c])) == a + b + d + [c]
    ensures a + (b + [c]) + "" == a + b + "" + [c]
    ensures a + (b + (d + [c])) + "" == a + b + d + [c]
    ensures a + (b + [c]) + "" + "" == a + b + "" + "" + [c]
  {
  }

  lemma CloseWritten(pieces: seq<Piece>, open: Open, c: char)
    requires open.Within? && c == open.quote && (c == '\'' || c == '"')
    ensures Spell(pieces + [if c == '\'' then Single(open.text) else Double(open.text)])
      == Spell(pieces) + (OpenText(open) + [c])
  {
    var p := if c == '\'' then Single(open.text) else Double(open.text);
    SpellMore(pieces, p);
    assert p.Spelled() == OpenText(open) + [c];
  }

  lemma StepTidily(r: Reading, c: char)
    requires Tidily(r)
    ensures Tidily(Step(r, c))
  {
  }

  lemma StepState(r: Reading, c: char)
    requires Tidily(r)
    ensures StateOf(Step(r, c)) == StateOf(r).Next(c)
  {
    if r.open.Within? {
      WithinState(r, c);
    } else {
      assert Means(r.pieces) + "" == Means(r.pieces);
      ClosedState(r, c);
    }
  }

  lemma WithinState(r: Reading, c: char)
    requires Tidily(r) && r.open.Within?
    ensures StateOf(Step(r, c)) == StateOf(r).Next(c)
  {
    if c == r.open.quote {
      CloseState(r);
    } else {
      assert Means(r.pieces) + r.open.text + [c] == Means(r.pieces) + (r.open.text + [c]);
    }
  }

  lemma CloseState(r: Reading)
    requires Tidily(r) && r.open.Within?
    ensures StateOf(Step(r, r.open.quote)) == StateOf(r).Next(r.open.quote)
  {
    var p := if r.open.quote == '\'' then Single(r.open.text) else Double(r.open.text);
    SpellMore(r.pieces, p);
    assert Means(r.pieces) + r.open.text + "" == Means(r.pieces) + r.open.text;
  }

  lemma ClosedState(r: Reading, c: char)
    requires Tidily(r) && r.open.Closed? && Means(r.pieces) + "" == Means(r.pieces)
    ensures StateOf(Step(r, c)) == StateOf(r).Next(c)
  {
    if c == '\'' || c == '"' {
    } else if !Text.IsSpace(c) {
      SpellMore(r.pieces, Plainly(c));
      assert Means(r.pieces) + [c] + "" == Means(r.pieces) + [c];
    } else {
      WriteMore(r.words, Spaced(r.gap, r.pieces));
    }
  }

  lemma {:induction false} Reads(s: string) returns (r: Reading)
    ensures Tidily(r) && Written(r) == s && StateOf(r) == ScanText(START, s)
  {
    if s == "" {
      r := Reading([], "", [], Closed);
      assert Tokens([]) == [];
    } else {
      var n := |s| - 1;
      var before := Reads(s[..n]);
      r := Step(before, s[n]);
      ReadsMore(before, s[..n], s[n]);
      assert s == s[..n] + [s[n]];
    }
  }

  lemma ReadsMore(r: Reading, s: string, c: char)
    requires Tidily(r) && Written(r) == s && StateOf(r) == ScanText(START, s)
    ensures Tidily(Step(r, c)) && Written(Step(r, c)) == s + [c] && StateOf(Step(r, c)) == ScanText(START, s + [c])
  {
    StepWritten(r, c);
    StepTidily(r, c);
    StepState(r, c);
    ScanMore(START, s, c);
  }

  // ---- both ways ----

  // A layout of a line, with spaces at its end.
  ghost predicate Spells(line: string, words: seq<Spaced>, tail: string, tokens: seq<string>) {
    Layout(words) && Text.Blank(tail) && line == Write(words) + tail && tokens == Tokens(words)
  }

  lemma Spelled(line: string, words: seq<Spaced>, tail: string, tokens: seq<string>)
    requires Spells(line, words, tail, tokens)
    ensures Tokenize(line) == Some(tokens)
  {
    ScanWords(words);
    ScanConcat(START, Write(words), tail);
    ScanGap(ScanText(START, Write(words)), tail);
  }

  lemma Laid(line: string) returns (words: seq<Spaced>, tail: string)
    requires Tokenize(line).Some?
    ensures Spells(line, words, tail, Tokenize(line).value)
  {
    var r := Reads(line);
    if r.pieces == [] {
      words, tail := r.words, r.gap;
      LaidAfterGap(line, r);
    } else {
      words, tail := r.words + [Spaced(r.gap, r.pieces)], "";
      LaidAfterWord(line, r);
    }
  }

  lemma LaidAfterGap(line: string, r: Reading)
    requires Tidily(r) && Written(r) == line && StateOf(r) == ScanText(START, line)
    requires r.pieces == [] && Tokenize(line).Some?
    ensures Spells(line, r.words, r.gap, Tokenize(line).value)
  {
    assert Means([]) + "" == "";
  }

  lemma LaidAfterWord(line: string, r: Reading)
    requires Tidily(r) && Written(r) == line && StateOf(r) == ScanText(START, line)
    requires r.pieces != [] && Tokenize(line).Some?
    ensures Spells(line, r.words + [Spaced(r.gap, r.pieces)], "", Tokenize(line).value)
  {
    WriteMore(r.words, Spaced(r.gap, r.pieces));
    assert Means(r.pieces) + "" == Means(r.pieces);
  }

  // A line has tokens exactly if it is words between spaces, and the tokens are what the
  // words mean.  Only a quote that is never closed is refused.
  lemma TokenizeExactly(line: string, tokens: seq<string>)
    ensures Tokenize(line) == Some(tokens) <==> exists words, tail :: Spells(line, words, tail, tokens)
  {
    if Tokenize(line) == Some(tokens) {
      var words, tail := Laid(line);
    }
    if words, tail :| Spells(line, words, tail, tokens) {
      Spelled(line, words, tail, tokens);
    }
  }
}
