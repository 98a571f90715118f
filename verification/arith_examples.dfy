/** Worked examples of the arithmetic pipeline: the lexer on short texts,
    the parser on short token lists, and `toJson` on the result. */
module ArithExamples {
  import opened Results
  import opened Decimal
  import opened ArithLexer
  import opened ArithParser
  import opened ArithGrammar
  import opened ArithJson

  // ---------------------------------------------------------------------
  // The lexer

  /** One character CHAR takes, then the rest. */
  lemma {:induction false} CharStep(c: char, rest: string, more: seq<Piece>)
    requires IsCharKind(c) && Pieces(rest) == Ok(more)
    ensures Pieces([c] + rest) == Ok([Piece(Char, [c])] + more)
  {
    var s := [c] + rest;
    assert s[..1] == [c] && s[1..] == rest;
    assert IgnoreLen(s) == 0 && DigitRun(s) == 0;
    PiecesStep(s);
  }

  /** One digit INT takes, when no digit follows. */
  lemma {:induction false} DigitStep(d: char, rest: string, more: seq<Piece>)
    requires IsDigit(d) && (|rest| == 0 || !IsDigit(rest[0])) && Pieces(rest) == Ok(more)
    ensures Pieces([d] + rest) == Ok([Piece(Int, [d])] + more)
  {
    var s := [d] + rest;
    assert s[..1] == [d] && s[1..] == rest;
    assert DigitRun(rest) == 0;
    assert IgnoreLen(s) == 0 && DigitRun(s) == 1;
    PiecesStep(s);
  }

  /** A run of blanks IGNORE takes, when neither a blank nor `#` follows. */
  lemma {:induction false} BlankStep(rest: string, more: seq<Piece>)
    requires |rest| > 0 && !IsBlank(rest[0]) && rest[0] != '#' && Pieces(rest) == Ok(more)
    ensures Pieces([' '] + rest) == Ok([Piece(Ignore, " ")] + more)
  {
    var s := [' '] + rest;
    assert s[..1] == " " && s[1..] == rest;
    assert IgnoreLen(rest) == 0;
    assert IgnoreLen(s) == 1;
    PiecesStep(s);
  }

  lemma {:induction false} KeptStep(p: Piece, ps: seq<Piece>)
    ensures Kept([p] + ps) == (if p.rule == Ignore then [] else [Token(if p.rule == Char then p.text else "INT", p.text)]) + Kept(ps)
  {
    assert ([p] + ps)[1..] == ps;
  }

  /** The matches in `a-b-c` followed by a newline. */
  function SubtractionPieces(a: char, b: char, c: char): seq<Piece> {
    [Piece(Int, [a]), Piece(Char, "-"), Piece(Int, [b]), Piece(Char, "-"), Piece(Int, [c]), Piece(Char, "\n")]
  }

  lemma {:induction false} SubtractionMatches(a: char, b: char, c: char)
    requires IsDigit(a) && IsDigit(b) && IsDigit(c)
    ensures Pieces([a, '-', b, '-', c, '\n']) == Ok(SubtractionPieces(a, b, c))
  {
    var ps := SubtractionPieces(a, b, c);
    var t2: string := [c, '\n'];
    var t1 := [b, '-'] + t2;
    assert [a, '-'] + t1 == [a, '-', b, '-', c, '\n'];
    assert Pieces([]) == Ok([]) && t2 == t2 + [];
    DigitThen(c, '\n', [], []);
    assert ps[4..] == [Piece(Int, [c]), Piece(Char, ['\n'])] + [];
    DigitThen(b, '-', t2, ps[4..]);
    assert ps[2..] == [Piece(Int, [b]), Piece(Char, ['-'])] + ps[4..];
    DigitThen(a, '-', t1, ps[2..]);
    assert ps == [Piece(Int, [a]), Piece(Char, ['-'])] + ps[2..];
  }

  /** A one-digit INT, then one character CHAR takes. */
  lemma {:induction false} DigitThen(d: char, c: char, rest: string, more: seq<Piece>)
    requires IsDigit(d) && IsCharKind(c) && Pieces(rest) == Ok(more)
    ensures Pieces([d, c] + rest) == Ok([Piece(Int, [d]), Piece(Char, [c])] + more)
  {
    CharStep(c, rest, more);
    DigitStep(d, [c] + rest, [Piece(Char, [c])] + more);
    assert [d] + ([c] + rest) == [d, c] + rest;
    assert [Piece(Int, [d])] + ([Piece(Char, [c])] + more) == [Piece(Int, [d]), Piece(Char, [c])] + more;
  }

  lemma {:induction false} SubtractionKept(a: char, b: char, c: char)
    ensures Kept(SubtractionPieces(a, b, c))
      == [Token("INT", [a]), Tok("-"), Token("INT", [b]), Tok("-"), Token("INT", [c]), Tok("\n")]
  {
    var ps := SubtractionPieces(a, b, c);
    assert Kept(ps[6..]) == [];
    KeptStep(ps[5], ps[6..]);
    assert ps[5..] == [ps[5]] + ps[6..];
    KeptStep(ps[4], ps[5..]);
    assert ps[4..] == [ps[4]] + ps[5..];
    KeptStep(ps[3], ps[4..]);
    assert ps[3..] == [ps[3]] + ps[4..];
    KeptStep(ps[2], ps[3..]);
    assert ps[2..] == [ps[2]] + ps[3..];
    KeptStep(ps[1], ps[2..]);
    assert ps[1..] == [ps[1]] + ps[2..];
    KeptStep(ps[0], ps[1..]);
    assert ps == [ps[0]] + ps[1..];
  }

  /** `a-b-c` followed by a newline, for any digits `a`, `b`, `c`: three INT
      tokens, two `-` tokens, the newline as a token of its own, then
      `<EOF>`. */
  lemma {:induction false} LexerExample(a: char, b: char, c: char)
    requires IsDigit(a) && IsDigit(b) && IsDigit(c)
    ensures Tokenize([a, '-', b, '-', c, '\n'])
      == Ok([Token("INT", [a]), Tok("-"), Token("INT", [b]), Tok("-"), Token("INT", [c]), Tok("\n"), EofToken])
  {
    SubtractionMatches(a, b, c);
    SubtractionKept(a, b, c);
    var ts := [Token("INT", [a]), Tok("-"), Token("INT", [b]), Tok("-"), Token("INT", [c]), Tok("\n")];
    assert ts + [EofToken] == [Token("INT", [a]), Tok("-"), Token("INT", [b]), Tok("-"), Token("INT", [c]), Tok("\n"), EofToken];
  }

  /** A blank, a digit `d`, a blank and a comment running to the end of the
      text: the blanks and the comment make no token. */
  lemma {:induction false} CommentExample(d: char, comment: string)
    requires IsDigit(d) && forall i :: 0 <= i < |comment| ==> !IsLineTerminator(comment[i])
    ensures Tokenize(" " + [d] + " #" + comment) == Ok([Token("INT", [d]), EofToken])
  {
    var s2 := " #" + comment;
    var ps := [Piece(Ignore, " "), Piece(Int, [d]), Piece(Ignore, s2)];
    CommentMatches(d, comment);
    assert Kept(ps) == [Token("INT", [d])] by {
      assert Kept(ps[3..]) == [];
      KeptStep(ps[2], ps[3..]);
      assert ps[2..] == [ps[2]] + ps[3..];
      KeptStep(ps[1], ps[2..]);
      assert ps[1..] == [ps[1]] + ps[2..];
      KeptStep(ps[0], ps[1..]);
      assert ps == [ps[0]] + ps[1..];
    }
    assert Kept(ps) + [EofToken] == [Token("INT", [d]), EofToken];
  }

  lemma {:induction false} CommentMatches(d: char, comment: string)
    requires IsDigit(d) && forall i :: 0 <= i < |comment| ==> !IsLineTerminator(comment[i])
    ensures var s2 := " #" + comment;
      Pieces(" " + [d] + " #" + comment) == Ok([Piece(Ignore, " "), Piece(Int, [d]), Piece(Ignore, s2)])
  {
    var s2 := " #" + comment;
    var s1 := [d] + s2;
    Seqs.Regroup3(" ", [d], " #", comment);
    var ps := [Piece(Ignore, " "), Piece(Int, [d]), Piece(Ignore, s2)];
    CommentRest(comment);
    assert ps[2..] == [Piece(Ignore, s2)];
    DigitStep(d, s2, ps[2..]);
    assert ps[1..] == [ps[1]] + ps[2..];
    BlankStep(s1, ps[1..]);
    assert ps == [ps[0]] + ps[1..];
  }

  /** A blank and a comment up to the end of the text are one IGNORE match. */
  lemma {:induction false} CommentRest(comment: string)
    requires forall i :: 0 <= i < |comment| ==> !IsLineTerminator(comment[i])
    ensures Pieces(" #" + comment) == Ok([Piece(Ignore, " #" + comment)])
  {
    var s := " #" + comment;
    CommentLen(comment);
    assert s[0] == ' ' && s[1..] == ['#'] + comment;
    assert IgnoreLen(s) == 1 + IgnoreLen(s[1..]);
    var n := IgnoreLen(s);
    assert n == |s|;
    assert NextMatch(s) == Some((Ignore, n));
    PiecesStep(s);
    assert s[..n] == s && s[n..] == [];
    assert Pieces(s[n..]) == Ok([]);
    assert [Piece(Ignore, s)] + [] == [Piece(Ignore, s)];
  }

  /** A comment with no line terminator runs to the end of the text. */
  lemma {:induction false} CommentLen(comment: string)
    requires forall i :: 0 <= i < |comment| ==> !IsLineTerminator(comment[i])
    ensures LineLen(['#'] + comment) == 1 + |comment|
    ensures IgnoreLen(['#'] + comment) == 1 + |comment|
  {
    var t := ['#'] + comment;
    assert t[1..] == comment;
    LineToEnd(comment);
  }

  lemma {:induction false} LineToEnd(s: string)
    requires forall i :: 0 <= i < |s| ==> !IsLineTerminator(s[i])
    ensures LineLen(s) == |s|
    decreases |s|
  {
    if |s| > 0 {
      LineToEnd(s[1..]);
    }
  }

  /** A carriage return matches no rule: the lexer fails at its offset.
      Text read line by line never holds one, since `readLine` drops it. */
  lemma {:induction false} CarriageReturnExample()
    ensures Tokenize("1\r2") == Err(1)
  {
    assert "1\r2" == ['1'] + "\r2";
    assert "1\r2"[..1] == "1" && "1\r2"[1..] == "\r2";
    assert Pieces("\r2") == Err(0) by {
      assert IgnoreLen("\r2") == 0 && DigitRun("\r2") == 0 && CharLen("\r2") == 0;
    }
    assert DigitRun("\r2") == 0;
    assert DigitRun("1\r2") == 1;
    PiecesStep("1\r2");
  }

  // ---------------------------------------------------------------------
  // The parser

  const One := IntAst(1)
  const Two := IntAst(2)
  const Three := IntAst(3)

  /** `1-2-3` parses as `(1-2)-3`. */
  lemma {:induction false} SubtractionExample()
    ensures Parse([IntTok(1), Tok("-"), IntTok(2), Tok("-"), IntTok(3), Tok("\n"), EofToken])
      == Ok(ListAst([OpAst("-", [OpAst("-", [One, Two]), Three])]))
  {
    var inner := OpAst("-", [One, Two]);
    var e := OpAst("-", [inner, Three]);
    assert WellFormed(One) && WellFormed(Two) && WellFormed(Three);
    assert WellFormed(inner) && Level(inner) == 2;
    assert WellFormed(e) && Level(e) == 2;
    assert EmitExpr(One) == [IntTok(1)];
    assert EmitTerm(Two) == [IntTok(2)] && EmitTerm(Three) == [IntTok(3)];
    assert EmitExpr(inner) == [IntTok(1), Tok("-"), IntTok(2)];
    assert EmitExpr(e) == [IntTok(1), Tok("-"), IntTok(2), Tok("-"), IntTok(3)];
    var ts := [IntTok(1), Tok("-"), IntTok(2), Tok("-"), IntTok(3), Tok("\n"), EofToken];
    assert EmitProgram([e]) + [EofToken] == ts by {
      assert EmitProgram([e][1..]) == [];
      assert EmitProgram([e]) == EmitExpr(e) + [Tok("\n")];
    }
    ParseRoundTrip([e]);
    assert Parse(ts) == Ok(ListAst([e]));
  }

  /** `1+2*3` parses as `1+(2*3)`. */
  lemma {:induction false} PrecedenceExample()
    ensures Expr([IntTok(1), Tok("+"), IntTok(2), Tok("*"), IntTok(3), EofToken])
      == Ok((OpAst("+", [One, OpAst("*", [Two, Three])]), [EofToken]))
  {
    assert Level(One) == 0 && Level(Two) == 0 && Level(Three) == 0;
    assert EmitTerm(One) == [IntTok(1)];
    assert EmitFactor(Two) == [IntTok(2)] && EmitFactor(Three) == [IntTok(3)];
    assert [IntTok(1)] + [Tok("+")] + [IntTok(2)] + [Tok("*")] + [IntTok(3)] + [EofToken]
      == [IntTok(1), Tok("+"), IntTok(2), Tok("*"), IntTok(3), EofToken];
    ProductBindsTighter(One, "+", Two, "*", Three, [EofToken]);
  }

  /** `--1` is a negation of a negation. */
  lemma {:induction false} DoubleNegationExample()
    ensures Factor([Tok("-"), Tok("-"), IntTok(1), EofToken]) == Ok((OpAst("-", [OpAst("-", [One])]), [EofToken]))
  {
    var n := OpAst("-", [One]);
    assert EmitFactor(n) == [Tok("-"), IntTok(1)];
    assert [Tok("-")] + [Tok("-"), IntTok(1)] + [EofToken] == [Tok("-"), Tok("-"), IntTok(1), EofToken];
    NegationHasOneKid(n, [EofToken]);
  }

  /** A missing operand: `1+` stops at `<EOF>`, where `factor` expects `(`. */
  lemma {:induction false} MissingOperandExample()
    ensures Parse([IntTok(1), Tok("+"), EofToken]) == Err(SyntaxError("(", "<EOF>"))
  {
    assert NatToString(1) == "1";
    IntOfNatToString(1);
    var ts := [IntTok(1), Tok("+"), EofToken];
    assert ts[1..] == [Tok("+"), EofToken] && ts[2..] == [EofToken];
    assert Factor([EofToken]) == Err(SyntaxError("(", "<EOF>"));
    assert Factor(ts) == Ok((One, ts[1..]));
    assert Term(ts) == Ok((One, ts[1..]));
    assert ExprTail(One, ts[1..]) == Err(SyntaxError("(", "<EOF>"));
  }

  /** An unclosed parenthesis: `(1` fails where `)` was expected. */
  lemma {:induction false} UnclosedParenthesisExample()
    ensures Parse([Tok("("), IntTok(1), EofToken]) == Err(SyntaxError(")", "<EOF>"))
  {
    IntOfNatToString(1);
    assert NatToString(1) == "1";
    var eof := [EofToken];
    var inside := [IntTok(1)] + eof;
    var ts := [Tok("(")] + inside;
    assert ts == [Tok("("), IntTok(1), EofToken];
    assert inside[1..] == eof && ts[1..] == inside;
    assert Factor(inside) == Ok((One, eof));
    assert Term(inside) == Ok((One, eof));
    assert Expr(inside) == Ok((One, eof));
    assert Consume(")", eof) == Err(SyntaxError(")", "<EOF>"));
    assert Factor(ts) == Err(SyntaxError(")", "<EOF>"));
    assert Term(ts) == Err(SyntaxError(")", "<EOF>"));
    assert Expr(ts) == Err(SyntaxError(")", "<EOF>"));
    assert Program([], ts) == Err(SyntaxError(")", "<EOF>"));
  }

  /** An INT lexeme beyond `int` makes `Integer.valueOf` throw. */
  lemma {:induction false} OverflowExample()
    ensures Parse([Token("INT", "2147483648"), EofToken]) == Err(BadInt("2147483648"))
  {
    var big := "2147483648";
    assert NatToString(2) == "2";
    assert NatToString(21) == "21";
    assert NatToString(214) == "214";
    assert NatToString(2147) == "2147";
    assert NatToString(21474) == "21474";
    assert NatToString(214748) == "214748";
    assert NatToString(2147483) == "2147483";
    assert NatToString(21474836) == "21474836";
    assert NatToString(214748364) == "214748364";
    assert NatToString(2147483648) == "2147483648";
    DigitsValueOfNatToString(2147483648);
    IntOfDigits(big);
    assert IntOf(big).None?;
    var ts := [Token("INT", big), EofToken];
    assert Factor(ts) == Err(BadInt(big));
    assert Term(ts) == Err(BadInt(big));
    assert Expr(ts) == Err(BadInt(big));
  }

  // ---------------------------------------------------------------------
  // toJson

  /** The output for `1-2`. */
  lemma {:induction false} OperatorJsonExample()
    ensures ToJson(OpAst("-", [One, Two])) == "{\"tag\":\"-\",\"kids\":[1,2]}"
  {
    assert ToJson(One) == "1" && ToJson(Two) == "2" by {
      assert NatToString(1) == "1" && NatToString(2) == "2";
    }
    assert JoinJson([One, Two]) == "1,2" by {
      assert [One, Two][1..] == [Two] && [Two][1..] == [];
      assert CommaJson([]) == "";
      assert CommaJson([Two]) == ",2";
    }
    assert ToJson(OpAst("-", [One, Two])) == TagOpen + "-" + KidsOpen + "1,2" + OpClose;
  }

  /** The output for `1-2-3`. */
  lemma {:induction false} JsonExample()
    ensures ToJson(ListAst([OpAst("-", [OpAst("-", [One, Two]), Three])]))
      == "[" + "{\"tag\":\"-\",\"kids\":[" + "{\"tag\":\"-\",\"kids\":[1,2]}" + ",3]}" + "]"
  {
    var inner := OpAst("-", [One, Two]);
    var outer := OpAst("-", [inner, Three]);
    var innerText := "{\"tag\":\"-\",\"kids\":[1,2]}";
    var outerText := "{\"tag\":\"-\",\"kids\":[" + innerText + ",3]}";
    OperatorJsonExample();
    assert ToJson(outer) == outerText by {
      assert JoinJson([inner, Three]) == innerText + ",3" by {
        assert ToJson(Three) == "3" by {
          assert NatToString(3) == "3";
        }
        assert [inner, Three][1..] == [Three] && [Three][1..] == [];
        assert CommaJson([]) == "";
        assert CommaJson([Three]) == ",3";
      }
      assert ToJson(outer) == TagOpen + "-" + KidsOpen + innerText + ",3" + OpClose;
    }
    assert JoinJson([outer]) == outerText by {
      assert [outer][1..] == [];
    }
  }
}
