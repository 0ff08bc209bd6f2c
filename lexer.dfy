/** The tokenizer of the JSON validator: a trimmed input text and a cursor.
    At this stage of the program it knows only the two braces, the end of
    input and a catch-all invalid token. */
module Lexer {

  /** The token types; Name() gives the string constant the program uses
      for each of them. */
  datatype TokenType = CurlyOpen | CurlyClose | EOF | Invalid {
    function Name(): string {
      match this
      case CurlyOpen => "{"
      case CurlyClose => "}"
      case EOF => "EOF"
      case Invalid => "INVALID"
    }
  }

  datatype Token = Token(tokenType: TokenType, literal: string)

  /** The four type names are distinct, so comparing token types, as the
      parser does with the program's string constants, is comparing names. */
  lemma TokenTypeNamesDistinct(a: TokenType, b: TokenType)
    ensures a.Name() == b.Name() <==> a == b
  {
  }

  const OpenToken := Token(CurlyOpen, "{")
  const CloseToken := Token(CurlyClose, "}")
  const EofToken := Token(EOF, "")

  // ---------------------------------------------------------------------
  // Two whitespace sets

  /** The whitespace the tokenizer skips between tokens. */
  predicate IsSkipSpace(c: char) {
    c == ' ' || c == '\t' || c == '\n' || c == '\r'
  }

  /** The whitespace stripped from both ends of the input when the lexer is
      created: the code points of Unicode's White_Space property, as the Go
      library's space test classifies them. It includes vertical tab and
      form feed, which the tokenizer itself does not skip. */
  predicate IsTrimSpace(c: char) {
    ('\t' <= c <= '\r') || c == ' ' || c == '\U{85}' || c == '\U{A0}' ||
    c == '\U{1680}' || ('\U{2000}' <= c <= '\U{200A}') ||
    c == '\U{2028}' || c == '\U{2029}' || c == '\U{202F}' ||
    c == '\U{205F}' || c == '\U{3000}'
  }

  lemma SkipSpaceIsTrimSpace(c: char)
    ensures IsSkipSpace(c) ==> IsTrimSpace(c)
    ensures !IsSkipSpace('\U{B}') && IsTrimSpace('\U{B}')
    ensures !IsSkipSpace('\U{C}') && IsTrimSpace('\U{C}')
  {
  }

  predicate AllTrimSpace(s: string) {
    forall k :: 0 <= k < |s| ==> IsTrimSpace(s[k])
  }

  // ---------------------------------------------------------------------
  // Trimming

  /** The number of leading trim-space characters of s. */
  function TrimStart(s: string): (i: nat)
    ensures i <= |s|
    ensures forall k :: 0 <= k < i ==> IsTrimSpace(s[k])
    ensures i < |s| ==> !IsTrimSpace(s[i])
    decreases |s|
  {
    if s == [] || !IsTrimSpace(s[0]) then 0 else 1 + TrimStart(s[1..])
  }

  /** The length of s once its trailing trim-space characters are removed. */
  function TrimEnd(s: string): (j: nat)
    ensures j <= |s|
    ensures forall k :: j <= k < |s| ==> IsTrimSpace(s[k])
    ensures 0 < j ==> !IsTrimSpace(s[j - 1])
    decreases |s|
  {
    if s == [] || !IsTrimSpace(s[|s| - 1]) then |s| else TrimEnd(s[..|s| - 1])
  }

  /** The input with all leading and trailing white space removed: a slice of
      s that neither starts nor ends with white space, and everything cut off
      on either side is white space. */
  function TrimSpace(s: string): (r: string)
    ensures |r| <= |s|
    ensures r == [] || (!IsTrimSpace(r[0]) && !IsTrimSpace(r[|r| - 1]))
    ensures exists i :: 0 <= i <= |s| - |r| && r == s[i..i + |r|]
                        && AllTrimSpace(s[..i]) && AllTrimSpace(s[i + |r|..])
  {
    var i := TrimStart(s);
    var t := s[i..];
    var r := t[..TrimEnd(t)];
    assert r == s[i..i + |r|];
    assert AllTrimSpace(s[..i]);
    assert AllTrimSpace(s[i + |r|..]) by {
      assert s[i + |r|..] == t[TrimEnd(t)..];
    }
    r
  }

  /** TrimStart is the unique count its contract describes. */
  lemma TrimStartAt(s: string, n: nat)
    requires n <= |s|
    requires forall k :: 0 <= k < n ==> IsTrimSpace(s[k])
    requires n < |s| ==> !IsTrimSpace(s[n])
    ensures TrimStart(s) == n
  {
  }

  /** TrimEnd is the unique length its contract describes. */
  lemma TrimEndAt(s: string, n: nat)
    requires n <= |s|
    requires forall k :: n <= k < |s| ==> IsTrimSpace(s[k])
    requires 0 < n ==> !IsTrimSpace(s[n - 1])
    ensures TrimEnd(s) == n
  {
  }

  /** Trimming is determined by its contract: any way of writing s as white
      space, then a text r without white space at either end, then white
      space, has r == TrimSpace(s). */
  lemma TrimSpaceUnique(a: string, r: string, b: string)
    requires AllTrimSpace(a) && AllTrimSpace(b)
    requires r == [] || (!IsTrimSpace(r[0]) && !IsTrimSpace(r[|r| - 1]))
    ensures TrimSpace(a + r + b) == r
  {
    var s := a + r + b;
    if r == [] {
      forall k | 0 <= k < |s| ensures IsTrimSpace(s[k]) {
        if k < |a| { assert s[k] == a[k]; } else { assert s[k] == b[k - |a|]; }
      }
      TrimStartAt(s, |s|);
    } else {
      forall k | 0 <= k < |a| ensures IsTrimSpace(s[k]) {
        assert s[k] == a[k];
      }
      assert s[|a|] == r[0];
      TrimStartAt(s, |a|);
      var t := s[|a|..];
      assert t == r + b;
      forall k | |r| <= k < |t| ensures IsTrimSpace(t[k]) {
        assert t[k] == b[k - |r|];
      }
      assert t[|r| - 1] == r[|r| - 1];
      TrimEndAt(t, |r|);
      assert t[..|r|] == r;
    }
  }

  /** Trimming twice is trimming once. */
  lemma TrimSpaceIdempotent(s: string)
    ensures TrimSpace(TrimSpace(s)) == TrimSpace(s)
  {
    var r := TrimSpace(s);
    assert r == [] + r + [];
    TrimSpaceUnique([], r, []);
  }

  // ---------------------------------------------------------------------
  // The tokenizer as a function of the text and the cursor

  /** The first position at or after p that does not hold skippable white
      space (|input| when only white space remains). */
  function SkipSpace(input: string, p: nat): (q: nat)
    requires p <= |input|
    ensures p <= q <= |input|
    ensures forall k :: p <= k < q ==> IsSkipSpace(input[k])
    ensures q < |input| ==> !IsSkipSpace(input[q])
    decreases |input| - p
  {
    if p == |input| || !IsSkipSpace(input[p]) then p else SkipSpace(input, p + 1)
  }

  /** A token together with the cursor after it. */
  datatype Scanned = Scanned(tok: Token, next: nat)

  /** What one call of NextToken returns, and where it leaves the cursor,
      when the cursor stands at p. */
  function Scan(input: string, p: nat): (r: Scanned)
    requires p <= |input|
    ensures p <= r.next <= |input|
    ensures r.tok.tokenType == CurlyOpen || r.tok.tokenType == CurlyClose ==> p < r.next
  {
    var q := SkipSpace(input, p);
    if q == |input| then Scanned(EofToken, q)
    else if input[q] == '{' then Scanned(OpenToken, q + 1)
    else if input[q] == '}' then Scanned(CloseToken, q + 1)
    else Scanned(Token(Invalid, [input[q]]), q)
  }

  /** A brace token carries its own type name as its literal, the cursor
      ends just past that brace, and everything skipped before it is
      skippable white space. */
  lemma ScanBrace(input: string, p: nat)
    requires p <= |input|
    requires Scan(input, p).tok.tokenType in {CurlyOpen, CurlyClose}
    ensures var r := Scan(input, p);
      && r.tok.literal == r.tok.tokenType.Name()
      && p < r.next
      && [input[r.next - 1]] == r.tok.literal
      && forall k :: p <= k < r.next - 1 ==> IsSkipSpace(input[k])
  {
  }

  /** An invalid token is the first character at or after p that is neither
      skippable white space nor a brace; the cursor is left on it, so calling again returns the same token and the cursor
      does not move. */
  lemma ScanInvalidSticks(input: string, p: nat)
    requires p <= |input|
    requires Scan(input, p).tok.tokenType == Invalid
    ensures var r := Scan(input, p);
      && r.next < |input|
      && r.tok.literal == [input[r.next]]
      && !IsSkipSpace(input[r.next]) && input[r.next] != '{' && input[r.next] != '}'
      && (forall k :: p <= k < r.next ==> IsSkipSpace(input[k]))
      && Scan(input, r.next) == r
  {
  }

  /** The end-of-input token comes exactly when only skippable white space
      is left; it has an empty literal, leaves the cursor at the end, and is
      returned again on every later call. */
  lemma ScanEof(input: string, p: nat)
    requires p <= |input|
    ensures Scan(input, p).tok.tokenType == EOF <==>
            forall k :: p <= k < |input| ==> IsSkipSpace(input[k])
    ensures Scan(input, p).tok.tokenType == EOF ==>
            && Scan(input, p) == Scanned(EofToken, |input|)
            && Scan(input, |input|) == Scan(input, p)
  {
  }

  /** The tokens NextToken returns from cursor p on, up to and including the
      first end-of-input or invalid token (after which the lexer repeats
      itself). */
  function TokenStream(input: string, p: nat): (ts: seq<Token>)
    requires p <= |input|
    ensures 1 <= |ts|
    ensures ts[|ts| - 1].tokenType in {EOF, Invalid}
    ensures forall k :: 0 <= k < |ts| - 1 ==> ts[k].tokenType in {CurlyOpen, CurlyClose}
    decreases |input| - p
  {
    var r := Scan(input, p);
    if r.tok.tokenType in {CurlyOpen, CurlyClose} then [r.tok] + TokenStream(input, r.next)
    else [r.tok]
  }

  // ---------------------------------------------------------------------
  // The lexer object

  class Lexer {
    const input: string
    var pos: nat

    ghost predicate Valid()
      reads this
    {
      pos <= |input|
    }

    /** A lexer over the input with its surrounding white space removed,
        with the cursor at the start. */
    constructor NewLexer(s: string)
      ensures input == TrimSpace(s) && pos == 0
      ensures Valid()
    {
      input := TrimSpace(s);
      pos := 0;
    }

    /** Skips white space and returns the next token. */
    method NextToken() returns (tok: Token)
      requires Valid()
      modifies this
      ensures Valid()
      ensures old(pos) <= pos
      ensures Scan(input, old(pos)) == Scanned(tok, pos)
    {
      while pos < |input|
        invariant old(pos) <= pos <= |input|
        invariant SkipSpace(input, old(pos)) == SkipSpace(input, pos)
        decreases |input| - pos
      {
        var ch := input[pos];
        if IsSkipSpace(ch) {
          pos := pos + 1;
        } else if ch == '{' {
          pos := pos + 1;
          return Token(CurlyOpen, "{");
        } else if ch == '}' {
          pos := pos + 1;
          return Token(CurlyClose, "}");
        } else {
          return Token(Invalid, [ch]);
        }
      }
      return Token(EOF, "");
    }
  }

  /** Tokenizing "{}" gives an opening brace, a closing brace and the end of
      input, in that order. */
  method TokenizeEmptyObject() returns (ts: seq<Token>)
    ensures ts == [OpenToken, CloseToken, EofToken]
  {
    var l := new Lexer.NewLexer("{}");
    assert l.input == "{}" by {
      assert "{}" == [] + "{}" + [];
      TrimSpaceUnique([], "{}", []);
    }
    var t0 := l.NextToken();
    var t1 := l.NextToken();
    var t2 := l.NextToken();
    ts := [t0, t1, t2];
  }
}
