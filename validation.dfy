/** How the command line and the tests use the core: a lexer over the whole
    text, a parser over that lexer, one call of Parse. */
module Validation {
  import opened Lexer
  import opened Parser

  /** The verdict on a whole document: valid exactly when, once trimmed, it
      is an opening brace, skippable white space and a closing brace. */
  method Validate(s: string) returns (ok: bool)
    ensures ok <==> IsEmptyObject(TrimSpace(s))
  {
    var lex := new Lexer.NewLexer(s);
    var parser := new Parser.NewParser(lex);
    ghost var rounds;
    ok, rounds := parser.Parse();
    EmptyObjectTokens(lex.input);
  }

  /** A text without white space at either end is its own trimmed form. */
  lemma TrimSpaceOfTrimmed(s: string)
    requires s == [] || (!IsTrimSpace(s[0]) && !IsTrimSpace(s[|s| - 1]))
    ensures TrimSpace(s) == s
  {
    var e: string := [];
    assert s == e + s + e;
    TrimSpaceUnique(e, s, e);
  }

  // The verdicts the parser's tests expect, one lemma per test case.

  lemma ParserTestEmptyObject()
    ensures IsEmptyObject(TrimSpace("{}"))
  {
    TrimSpaceOfTrimmed("{}");
  }

  lemma ParserTestOnlyOpeningBrace()
    ensures !IsEmptyObject(TrimSpace("{"))
  {
    TrimSpaceOfTrimmed("{");
  }

  lemma ParserTestOnlyClosingBrace()
    ensures !IsEmptyObject(TrimSpace("}"))
  {
    TrimSpaceOfTrimmed("}");
  }

  lemma ParserTestExtraComma()
    ensures !IsEmptyObject(TrimSpace("{,}"))
  {
    var s := "{,}";
    TrimSpaceOfTrimmed(s);
    assert s[1] == ',';
  }

  lemma ParserTestTrailingCharacters()
    ensures !IsEmptyObject(TrimSpace("{} extra"))
  {
    var s := "{} extra";
    assert s[0] == '{' && s[|s| - 1] == 'a';
    TrimSpaceOfTrimmed(s);
  }

  lemma ParserTestJustString()
    ensures !IsEmptyObject(TrimSpace("\"key\""))
  {
    var s := "\"key\"";
    assert s[0] == '"' && s[|s| - 1] == '"';
    TrimSpaceOfTrimmed(s);
  }

  lemma ParserTestEmptyInput()
    ensures !IsEmptyObject(TrimSpace(""))
  {
    TrimSpaceOfTrimmed("");
  }

  /** White space never changes the verdict on an empty object: any trimmed
      white space around it and any skippable white space between the braces
      leave a valid text. */
  lemma WhitespaceAnywhere(a: string, w: string, b: string)
    requires AllTrimSpace(a) && AllTrimSpace(b)
    requires forall k :: 0 <= k < |w| ==> IsSkipSpace(w[k])
    ensures IsEmptyObject(TrimSpace(a + ("{" + w + "}") + b))
  {
    var r := "{" + w + "}";
    assert r[0] == '{' && r[|r| - 1] == '}';
    TrimSpaceUnique(a, r, b);
    assert forall k :: 0 < k < |r| - 1 ==> r[k] == w[k - 1];
  }

  /** The two white space sets differ: vertical tab and form feed are trimmed
      from the ends... */
  lemma TrimmedAtTheEnds()
    ensures IsEmptyObject(TrimSpace("\U{B}{}\U{C}"))
  {
    var a, r, b := "\U{B}", "{}", "\U{C}";
    assert AllTrimSpace(a) by { assert a[0] == '\U{B}'; }
    assert AllTrimSpace(b) by { assert b[0] == '\U{C}'; }
    assert a + r + b == "\U{B}{}\U{C}";
    TrimSpaceUnique(a, r, b);
  }

  /** ...but inside the braces only space, tab, LF and CR may stand: a
      single character c between the braces is valid exactly when it is one
      of those four. Any other character there except a brace (a vertical
      tab, a form feed, a comma) is read as an INVALID token. */
  lemma SingleCharacterInside(c: char)
    ensures IsEmptyObject(TrimSpace("{" + [c] + "}")) <==> IsSkipSpace(c)
    ensures !IsSkipSpace(c) && c != '{' && c != '}' ==>
            Scan("{" + [c] + "}", 1) == Scanned(Token(Invalid, [c]), 1)
  {
    var s := "{" + [c] + "}";
    assert s[0] == '{' && s[1] == c && s[2] == '}';
    TrimSpaceOfTrimmed(s);
  }
}
