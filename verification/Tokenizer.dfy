// The quote-aware tokenizer of apply/parser.go, and the quoting of
// internal/templates/templates.go that it must undo.
module Tokenizer {
  import opened Wrappers
  import Text

  // The variables of the scanning loop.
  datatype Scan = Scan(tokens: seq<string>, current: string, inSingle: bool, inDouble: bool, started: bool) {
    predicate Quoted() {
      inSingle || inDouble
    }

    // What the loop does with one character.
    function Next(c: char): Scan {
      if c == '\'' && !inDouble then this.(inSingle := !inSingle, started := true)
      else if c == '"' && !inSingle then this.(inDouble := !inDouble, started := true)
      else if Text.IsSpace(c) && !inSingle && !inDouble then Flush()
      else this.(current := current + [c], started := true)
    }

    // Ends the token under construction, if there is one.
    function Flush(): Scan {
      if started then this.(tokens := tokens + [current], current := [], started := false) else this
    }

    // Nothing is pending outside a started token.
    predicate Tidy() {
      !started ==> current == [] && !Quoted()
    }
  }

  const START := Scan([], [], false, false, false)

  function ScanText(st: Scan, s: string): (r: Scan)
    ensures st.Tidy() ==> r.Tidy()
    decreases |s|
  {
    if s == [] then st else ScanText(st.Next(s[0]), s[1..])
  }

  // None stands for the "unclosed quote" error.
  function Tokenize(line: string): Option<seq<string>> {
    var st := ScanText(START, line);
    if st.Quoted() then None else Some(st.Flush().tokens)
  }

  // tokenizeCommand (internal/vyos/runner.go repeats the same loop)
  method TokenizeCommand(line: string) returns (r: Option<seq<string>>)
    ensures r == Tokenize(line)
  {
    var tokens: seq<string> := [];
    var current: string := [];
    var inSingle, inDouble, tokenStarted := false, false, false;
    for i := 0 to |line|
      invariant ScanText(Scan(tokens, current, inSingle, inDouble, tokenStarted), line[i..])
             == ScanText(START, line)
    {
      var c := line[i];
      assert line[i..][1..] == line[i + 1..];
      if c == '\'' && !inDouble {
        inSingle := !inSingle;
        tokenStarted := true;
      } else if c == '"' && !inSingle {
        inDouble := !inDouble;
        tokenStarted := true;
      } else if Text.IsSpace(c) && !inSingle && !inDouble {
        if tokenStarted {
          tokens := tokens + [current];
          current := [];
          tokenStarted := false;
        }
      } else {
        current := current + [c];
        tokenStarted := true;
      }
    }
    if inSingle || inDouble {
      return None;
    }
    if tokenStarted {
      tokens := tokens + [current];
    }
    return Some(tokens);
  }

  // ---- quoting ----

  predicate Quotable(v: string) {
    forall c | c in v :: c != '\'' && c >= '\U{20}' && c != '\U{7f}'
  }

  // vyosQuote; None stands for its error.
  function VyosQuote(v: string): Option<string> {
    if Quotable(v) then Some("'" + v + "'") else None
  }

  // A word that needs no quoting.
  predicate Plain(w: string) {
    w != [] && forall c | c in w :: c != '\'' && c != '"' && !Text.IsSpace(c)
  }

  lemma {:induction false} ScanConcat(st: Scan, a: string, b: string)
    ensures ScanText(st, a + b) == ScanText(ScanText(st, a), b)
    decreases |a|
  {
    if a == [] {
      assert a + b == b;
    } else {
      assert (a + b)[1..] == a[1..] + b;
      ScanConcat(st.Next(a[0]), a[1..], b);
    }
  }

  // Inside single quotes everything but a single quote is taken literally.
  lemma {:induction false} ScanInsideQuotes(st: Scan, v: string)
    requires st.inSingle && !st.inDouble && st.started
    requires '\'' !in v
    ensures ScanText(st, v) == st.(current := st.current + v)
    decreases |v|
  {
    if v == [] {
      assert st.current + v == st.current;
    } else {
      ScanInsideQuotes(st.Next(v[0]), v[1..]);
      assert st.current + [v[0]] + v[1..] == st.current + v;
    }
  }

  lemma {:induction false} ScanPlain(st: Scan, w: string)
    requires !st.Quoted()
    requires w == [] || Plain(w)
    ensures ScanText(st, w) == if w == [] then st else st.(current := st.current + w, started := true)
    decreases |w|
  {
    if w != [] {
      assert w[0] in w && forall c | c in w[1..] :: c in w;
      ScanPlain(st.Next(w[0]), w[1..]);
      assert st.current + [w[0]] + w[1..] == st.current + w;
    }
  }

  lemma ScanQuoted(st: Scan, v: string)
    requires st.current == [] && !st.started && !st.Quoted()
    requires '\'' !in v
    ensures ScanText(st, "'" + v + "'") == st.(current := v, started := true)
  {
    ScanConcat(st, "'" + v, "'");
    ScanConcat(st, "'", v);
    assert "'"[1..] == [];
    var within := ScanText(st, "'");
    assert within == st.Next('\'');
    ScanInsideQuotes(within, v);
    assert [] + v == v;
    var inner := ScanText(st, "'" + v);
    assert ScanText(inner, "'") == inner.Next('\'');
  }

  // Appending a space and a quoted value to a balanced text appends exactly the
  // value, whatever it contains, as one more token.
  lemma QuoteTokenizeInverse(prefix: string, v: string)
    requires Tokenize(prefix).Some? && VyosQuote(v).Some?
    ensures Tokenize(prefix + " " + VyosQuote(v).value) == Some(Tokenize(prefix).value + [v])
  {
    var st := AfterSpace(prefix);
    ScanQuoted(st, v);
    ScanConcat(START, prefix + " ", "'" + v + "'");
  }

  lemma PlainTokenizeInverse(prefix: string, w: string)
    requires Tokenize(prefix).Some? && Plain(w)
    ensures Tokenize(prefix + " " + w) == Some(Tokenize(prefix).value + [w])
  {
    var st := AfterSpace(prefix);
    ScanPlain(st, w);
    assert [] + w == w;
    ScanConcat(START, prefix + " ", w);
  }

  lemma AfterSpace(prefix: string) returns (st: Scan)
    requires Tokenize(prefix).Some?
    ensures st == ScanText(START, prefix + " ")
    ensures st == Scan(Tokenize(prefix).value, [], false, false, false)
  {
    st := ScanText(START, prefix + " ");
    var before := ScanText(START, prefix);
    ScanConcat(START, prefix, " ");
    assert " "[1..] == [];
    assert ScanText(before, " ") == before.Next(' ');
  }

  lemma SingleWord(w: string)
    requires Plain(w)
    ensures Tokenize(w) == Some([w])
  {
    ScanPlain(START, w);
    assert START.current + w == w;
    assert START.tokens + [w] == [w];
  }

  // ---- whole command lines ----

  // A printed word: bare text, or a value to be quoted.
  datatype Word = Bare(text: string) | Quoted(text: string) {
    predicate Printable() {
      if Bare? then Plain(text) else Quotable(text)
    }

    function Print(): string {
      if Bare? then text else "'" + text + "'"
    }
  }

  // The words of a line, separated by single spaces.
  function PrintWords(words: seq<Word>): string
    requires words != []
  {
    if |words| == 1 then words[0].Print()
    else PrintWords(words[..|words| - 1]) + " " + words[|words| - 1].Print()
  }

  function Texts(words: seq<Word>): seq<string> {
    seq(|words|, i requires 0 <= i < |words| => words[i].text)
  }

  predicate Printables(words: seq<Word>) {
    words != [] && words[0].Bare? && forall w | w in words :: w.Printable()
  }

  // Tokenizing a printed command line gives back its words.
  lemma {:induction false} TokenizePrint(words: seq<Word>)
    requires Printables(words)
    ensures Tokenize(PrintWords(words)) == Some(Texts(words))
  {
    var n := |words| - 1;
    assert words[n] in words;
    if n == 0 {
      SingleWord(words[0].text);
      assert Texts(words) == [words[0].text];
    } else {
      FrontPrintable(words);
      TokenizePrint(words[..n]);
      TokenizeAppend(PrintWords(words[..n]), words[n]);
    }
  }

  lemma FrontPrintable(words: seq<Word>)
    requires Printables(words) && |words| > 1
    ensures var n := |words| - 1;
      && Printables(words[..n])
      && Texts(words) == Texts(words[..n]) + [words[n].text]
  {
    var front := words[..|words| - 1];
    assert forall w | w in front :: w in words;
  }

  lemma TokenizeAppend(prefix: string, w: Word)
    requires Tokenize(prefix).Some? && w.Printable()
    ensures Tokenize(prefix + " " + w.Print()) == Some(Tokenize(prefix).value + [w.text])
  {
    if w.Bare? {
      PlainTokenizeInverse(prefix, w.text);
    } else {
      QuoteTokenizeInverse(prefix, w.text);
    }
  }
}
