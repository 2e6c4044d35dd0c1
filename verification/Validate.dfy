// The character checks of internal/normalize/validate.go, and what they are good for:
// a valid token prints as one bare word, a valid description can be quoted.
module Validate {
  import Text
  import Tokenizer
  import Runner

  predicate IsTokenChar(c: char, allowSlash: bool) {
    || 'a' <= c <= 'z' || 'A' <= c <= 'Z' || '0' <= c <= '9'
    || c == '.' || c == '_' || c == '-' || c == ':' || (allowSlash && c == '/')
  }

  // validateToken
  predicate IsToken(value: string, allowSlash: bool) {
    value != "" && forall c | c in value :: IsTokenChar(c, allowSlash)
  }

  // unicode.IsControl
  predicate IsControl(c: char) {
    c < '\U{20}' || '\U{7f}' <= c <= '\U{9f}'
  }

  // validateDescription
  predicate IsDescription(value: string) {
    forall c | c in value :: c != '\'' && !IsControl(c)
  }

  lemma TokenIsBare(value: string, allowSlash: bool)
    requires IsToken(value, allowSlash)
    ensures Tokenizer.Plain(value) && !Text.ContainsAny(value, Runner.FORBIDDEN)
    ensures '\n' !in value && '\r' !in value
  {
    forall i | 0 <= i < |value|
      ensures value[i] !in Runner.FORBIDDEN
    {
      assert value[i] in value;
    }
  }

  lemma DescriptionIsQuotable(value: string)
    requires IsDescription(value)
    ensures Tokenizer.VyosQuote(value).Some?
    ensures '\n' !in value && '\r' !in value
  {
  }

  // Letters, digits, and four marks.
  predicate IsTokenMark(c: char) {
    c in Text.SMALLS || c in Text.CAPITALS || c in "0123456789" || c in "._-:"
  }

  lemma DigitAt(c: char)
    ensures c in "0123456789" <==> '0' <= c <= '9'
  {
    assert forall k | 0 <= k < 10 :: "0123456789"[k] as int == 48 + k;
    assert '0' <= c <= '9' ==> "0123456789"[c as int - 48] == c;
  }

  lemma TokenCharExactly(c: char)
    ensures IsTokenChar(c, false) <==> IsTokenMark(c)
  {
    Text.CapitalAt(c);
    Text.SmallAt(c);
    DigitAt(c);
    assert "._-:"[0] == '.' && "._-:"[1] == '_' && "._-:"[2] == '-' && "._-:"[3] == ':';
  }

  // Which tokens are valid: only addresses may have a slash.
  lemma TokenExactly(value: string, allowSlash: bool)
    ensures IsToken(value, allowSlash)
      <==> value != "" && forall c | c in value :: IsTokenMark(c) || (allowSlash && c == '/')
  {
    forall c
      ensures IsTokenChar(c, allowSlash) <==> IsTokenMark(c) || (allowSlash && c == '/')
    {
      TokenCharExactly(c);
    }
  }

  // A description is valid exactly if it can be quoted and has none of the control
  // characters beyond ASCII.
  lemma DescriptionExactly(value: string)
    ensures IsDescription(value) <==> Tokenizer.Quotable(value) && forall c | c in value :: !(0x80 <= c as int <= 0x9f)
  {
  }
}
