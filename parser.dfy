/** The validator: a state machine that pulls tokens from the lexer and, at
    this stage of the program, accepts only an empty object. */
module Parser {
  import opened Lexer

  datatype ParserState = Start | ExpectKeyOrEnd | Done

  /** How many more states the machine can pass through; it only goes down. */
  function Rank(s: ParserState): nat {
    match s
    case Start => 2
    case ExpectKeyOrEnd => 1
    case Done => 0
  }

  /** What the parser does with one token. */
  datatype Outcome = Continue(next: ParserState) | Accept | Reject

  /** The parser's decision for a token of type t read in the given state:
      the start check, then the loop's switch. Every token not listed is a
      rejection. */
  function Transition(state: ParserState, t: TokenType): (o: Outcome)
    ensures o.Continue? ==> Rank(o.next) < Rank(state)
    ensures o == Accept <==> state == Done && t == EOF
    ensures o.Continue? <==> (state == Start && t == CurlyOpen) || (state == ExpectKeyOrEnd && t == CurlyClose)
  {
    match state
    case Start => if t == CurlyOpen then Continue(ExpectKeyOrEnd) else Reject
    case _ =>
      match t
      case CurlyClose => if state != ExpectKeyOrEnd then Reject else Continue(Done)
      case EOF => if state == Done then Accept else Reject
      case _ => Reject
  }

  /** The verdict of a parse and the lexer's cursor when it ends. */
  datatype Verdict = Verdict(ok: bool, pos: nat)

  /** The parse that starts in the given state with the lexer's cursor at p:
      it reads tokens until the transition table accepts or rejects. */
  function Run(input: string, p: nat, state: ParserState): (v: Verdict)
    requires p <= |input|
    ensures p <= v.pos <= |input|
    ensures v.ok ==> v.pos == |input|
    decreases Rank(state)
  {
    var r := Scan(input, p);
    match Transition(state, r.tok.tokenType)
    case Accept => Verdict(true, r.next)
    case Reject => Verdict(false, r.next)
    case Continue(s) => Run(input, r.next, s)
  }

  /** In state Done the parse reads one more token and accepts exactly when
      it is the end of input: a second '}' and any other token are rejected. */
  lemma RunDone(input: string, p: nat)
    requires p <= |input|
    ensures Run(input, p, Done) == Verdict(Scan(input, p).tok.tokenType == EOF, Scan(input, p).next)
  {
  }

  /** Inside the object, a '}' moves to Done and the parse then needs the end
      of input; the end of input itself ("{" alone), an invalid character
      (as in "{,}") or another '{' is rejected on the spot. */
  lemma RunExpectKeyOrEnd(input: string, p: nat)
    requires p <= |input|
    ensures var r := Scan(input, p);
      Run(input, p, ExpectKeyOrEnd) ==
        if r.tok.tokenType == CurlyClose then Run(input, r.next, Done)
        else Verdict(false, r.next)
  {
  }

  /** A document whose first token is not '{' (a '}', a string, an empty
      text) is rejected after that one token. */
  lemma RunRejectsWithoutOpen(input: string, p: nat)
    requires p <= |input|
    requires Scan(input, p).tok.tokenType != CurlyOpen
    ensures Run(input, p, Start) == Verdict(false, Scan(input, p).next)
  {
  }

  /** The parser accepts exactly when the lexer's token stream is '{', '}',
      end of input. */
  lemma RunAccepts(input: string, p: nat)
    requires p <= |input|
    ensures Run(input, p, Start).ok <==> TokenStream(input, p) == [OpenToken, CloseToken, EofToken]
  {
    var r1 := Scan(input, p);
    var ts := TokenStream(input, p);
    if r1.tok.tokenType != CurlyOpen {
      RunRejectsWithoutOpen(input, p);
      assert ts[0] == r1.tok;
    } else {
      assert r1.tok == OpenToken;
      assert ts == [OpenToken] + TokenStream(input, r1.next);
      assert Run(input, p, Start) == Run(input, r1.next, ExpectKeyOrEnd);
      var r2 := Scan(input, r1.next);
      var ts2 := TokenStream(input, r1.next);
      RunExpectKeyOrEnd(input, r1.next);
      if r2.tok.tokenType != CurlyClose {
        assert ts2[0] == r2.tok;
        assert ts[1] == ts2[0];
      } else {
        assert r2.tok == CloseToken;
        assert ts2 == [CloseToken] + TokenStream(input, r2.next);
        var r3 := Scan(input, r2.next);
        var ts3 := TokenStream(input, r2.next);
        RunDone(input, r2.next);
        assert ts3[0] == r3.tok;
        if r3.tok.tokenType == EOF {
          assert r3.tok == EofToken;
          assert ts3 == [EofToken];
        }
        assert ts == [OpenToken, CloseToken] + ts3;
      }
    }
  }

  // ---------------------------------------------------------------------
  // The accepted language

  /** An opening brace, any run of skippable white space, a closing brace. */
  predicate IsEmptyObject(t: string) {
    2 <= |t| && t[0] == '{' && t[|t| - 1] == '}'
    && forall k :: 0 < k < |t| - 1 ==> IsSkipSpace(t[k])
  }

  /** SkipSpace is the unique position its contract describes. */
  lemma SkipSpaceAt(input: string, p: nat, q: nat)
    requires p <= q <= |input|
    requires forall k :: p <= k < q ==> IsSkipSpace(input[k])
    requires q < |input| ==> !IsSkipSpace(input[q])
    ensures SkipSpace(input, p) == q
  {
  }

  /** An empty object tokenizes as '{', '}', end of input. */
  lemma EmptyObjectHasTokens(t: string)
    requires IsEmptyObject(t)
    ensures TokenStream(t, 0) == [OpenToken, CloseToken, EofToken]
  {
    SkipSpaceAt(t, 0, 0);
    assert Scan(t, 0) == Scanned(OpenToken, 1);
    SkipSpaceAt(t, 1, |t| - 1);
    assert Scan(t, 1) == Scanned(CloseToken, |t|);
    SkipSpaceAt(t, |t|, |t|);
    assert TokenStream(t, |t|) == [EofToken];
    assert TokenStream(t, 1) == [CloseToken] + TokenStream(t, |t|);
  }

  /** On a text that neither starts nor ends with skippable white space, the
      token stream '{', '}', end of input comes only from an empty object. */
  lemma TokensAreEmptyObject(t: string)
    requires t == [] || (!IsSkipSpace(t[0]) && !IsSkipSpace(t[|t| - 1]))
    requires TokenStream(t, 0) == [OpenToken, CloseToken, EofToken]
    ensures IsEmptyObject(t)
  {
    var r1 := Scan(t, 0);
    assert r1.tok == TokenStream(t, 0)[0] == OpenToken;
    assert TokenStream(t, 0) == [r1.tok] + TokenStream(t, r1.next);
    assert SkipSpace(t, 0) == 0;
    assert r1.next == 1;
    var r2 := Scan(t, r1.next);
    assert r2.tok == TokenStream(t, 1)[0] == TokenStream(t, 0)[1] == CloseToken;
    assert TokenStream(t, 1) == [r2.tok] + TokenStream(t, r2.next);
    var q2 := SkipSpace(t, 1);
    var r3 := Scan(t, r2.next);
    assert r3.tok == TokenStream(t, r2.next)[0] == EofToken;
    ScanEof(t, r2.next);
    assert r2.next == |t|;
    assert q2 == |t| - 1;
  }

  /** On a text that neither starts nor ends with white space (as the lexer
      holds after trimming), the token stream is '{', '}', end of input
      exactly when the text is an empty object. */
  lemma EmptyObjectTokens(t: string)
    requires t == [] || (!IsTrimSpace(t[0]) && !IsTrimSpace(t[|t| - 1]))
    ensures TokenStream(t, 0) == [OpenToken, CloseToken, EofToken] <==> IsEmptyObject(t)
  {
    if t != [] {
      SkipSpaceIsTrimSpace(t[0]);
      SkipSpaceIsTrimSpace(t[|t| - 1]);
    }
    if IsEmptyObject(t) {
      EmptyObjectHasTokens(t);
    } else if TokenStream(t, 0) == [OpenToken, CloseToken, EofToken] {
      TokensAreEmptyObject(t);
    }
  }

  // ---------------------------------------------------------------------
  // The parser object

  class Parser {
    const lexer: Lexer

    constructor NewParser(l: Lexer)
      ensures lexer == l
    {
      lexer := l;
    }

    /** Reads tokens from the lexer and reports whether they form an empty
        object followed by the end of input. The loop runs at most twice. */
    method Parse() returns (ok: bool, ghost rounds: nat)
      requires lexer.Valid()
      modifies lexer
      ensures lexer.Valid()
      ensures Run(lexer.input, old(lexer.pos), Start) == Verdict(ok, lexer.pos)
      ensures ok <==> TokenStream(lexer.input, old(lexer.pos)) == [OpenToken, CloseToken, EofToken]
      ensures rounds <= 2
    {
      ghost var p0 := lexer.pos;
      RunAccepts(lexer.input, p0);
      var state := Start;
      rounds := 0;

      var tok := lexer.NextToken();
      if tok.tokenType != CurlyOpen {
        return false, rounds;
      }

      state := ExpectKeyOrEnd;
      while true
        invariant lexer.Valid()
        invariant state == ExpectKeyOrEnd || state == Done
        invariant Run(lexer.input, p0, Start) == Run(lexer.input, lexer.pos, state)
        invariant rounds + Rank(state) == 1
        decreases Rank(state)
      {
        tok := lexer.NextToken();
        rounds := rounds + 1;
        match tok.tokenType {
          case CurlyClose =>
            if state != ExpectKeyOrEnd {
              return false, rounds;
            }
            state := Done;
          case EOF =>
            if state == Done {
              return true, rounds;
            }
            return false, rounds;
          case _ =>
            return false, rounds;
        }
      }
    }
  }
}
