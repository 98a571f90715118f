/** What the arithmetic parser recognises, stated through its partner: a
    printer that writes a tree as the shortest token list for it, with
    parentheses only where the grammar needs them. Parsing the printed tokens
    gives the tree back, so `-` and `+` group to the left, `*` and `/` bind
    tighter than `+` and `-`, a unary `-` makes a one-child node, and
    parentheses leave no node of their own. */
module ArithGrammar {
  import opened Results
  import opened Decimal
  import opened ArithLexer
  import opened ArithParser
  import Seqs

  // ---------------------------------------------------------------------
  // Trees the parser builds

  /** A node `expr` or `term` builds: an operator with two operands. */
  predicate IsBinary(e: Ast) {
    e.OpAst? && |e.kids| == 2 && (IsAdditive(e.tag) || IsMultiplicative(e.tag))
  }

  /** A node `factor` builds for a unary minus. */
  predicate IsNegation(e: Ast) {
    e.OpAst? && e.tag == "-" && |e.kids| == 1
  }

  /** The grammar rule a tree belongs to: 2 for `expr`, 1 for `term`, 0 for
      `factor`. */
  function Level(e: Ast): nat {
    if IsBinary(e) && IsAdditive(e.tag) then 2
    else if IsBinary(e) then 1
    else 0
  }

  /** The trees `expr` can return. */
  predicate WellFormed(e: Ast) {
    match e
    case IntAst(v) => 0 <= v <= MaxInt
    case ListAst(_) => false
    case OpAst(_, kids) =>
      (IsBinary(e) || IsNegation(e)) && forall i :: 0 <= i < |kids| ==> WellFormed(kids[i])
  }

  // ---------------------------------------------------------------------
  // The printer

  function Tok(kind: string): Token {
    Token(kind, kind)
  }

  function IntTok(v: nat): Token {
    Token("INT", NatToString(v))
  }

  /** Whether a token can start an expression. */
  predicate StartsFactor(t: Token) {
    t.kind == "-" || t.kind == "INT" || t.kind == "("
  }

  // The three printers call each other on the same tree when it needs
  // parentheses; the second component of the measure orders those calls.

  function ExprRank(e: Ast): nat {
    if Level(e) == 0 then 2 else if Level(e) == 1 then 1 else 0
  }

  function TermRank(e: Ast): nat {
    if Level(e) == 0 then 1 else if Level(e) == 1 then 0 else 2
  }

  function FactorRank(e: Ast): nat {
    if Level(e) == 0 then 0 else if Level(e) == 1 then 2 else 1
  }

  function EmitExpr(e: Ast): (r: seq<Token>)
    requires WellFormed(e)
    ensures |r| > 0 && StartsFactor(r[0])
    decreases e, ExprRank(e)
  {
    if Level(e) == 2 then EmitExpr(e.kids[0]) + [Tok(e.tag)] + EmitTerm(e.kids[1])
    else EmitTerm(e)
  }

  function EmitTerm(e: Ast): (r: seq<Token>)
    requires WellFormed(e)
    ensures |r| > 0 && StartsFactor(r[0])
    decreases e, TermRank(e)
  {
    if Level(e) == 1 then EmitTerm(e.kids[0]) + [Tok(e.tag)] + EmitFactor(e.kids[1])
    else EmitFactor(e)
  }

  function EmitFactor(e: Ast): (r: seq<Token>)
    requires WellFormed(e)
    ensures |r| > 0 && StartsFactor(r[0])
    decreases e, FactorRank(e)
  {
    if e.IntAst? then [IntTok(e.val)]
    else if IsNegation(e) then [Tok("-")] + EmitFactor(e.kids[0])
    else [Tok("(")] + EmitExpr(e) + [Tok(")")]
  }

  // ---------------------------------------------------------------------
  // Parsing the printed tokens

  /** `factor` reads back exactly the tokens of a printed factor. */
  lemma {:induction false} FactorRoundTrip(e: Ast, tail: seq<Token>)
    requires WellFormed(e) && |tail| > 0
    ensures Factor(EmitFactor(e) + tail) == Ok((e, tail))
    decreases e, FactorRank(e)
  {
    var ts := EmitFactor(e) + tail;
    if e.IntAst? {
      IntOfNatToString(e.val);
      assert ts == [IntTok(e.val)] + tail;
      assert ts[1..] == tail;
    } else if IsNegation(e) {
      var x := e.kids[0];
      assert e == OpAst("-", [x]);
      FactorRoundTrip(x, tail);
      Seqs.Regroup2([Tok("-")], EmitFactor(x), tail);
      assert ts[1..] == EmitFactor(x) + tail;
    } else {
      var close := [Tok(")")] + tail;
      assert EmitFactor(e) == [Tok("(")] + EmitExpr(e) + [Tok(")")];
      assert ts[1..] == EmitExpr(e) + close by {
        Seqs.Regroup3([Tok("(")], EmitExpr(e), [Tok(")")], tail);
      }
      assert Expr(ts[1..]) == Ok((e, close)) by {
        ExprPrefix(e, close);
      }
      assert close[1..] == tail;
      FactorAtParen(ts, e, close);
    }
  }

  /** `term` reads a printed term and hands what follows to its loop. */
  lemma {:induction false} TermPrefix(e: Ast, tail: seq<Token>)
    requires WellFormed(e) && |tail| > 0
    ensures Term(EmitTerm(e) + tail) == TermTail(e, tail)
    decreases e, TermRank(e)
  {
    if Level(e) == 1 {
      var a, op, b := e.kids[0], e.tag, e.kids[1];
      assert e == OpAst(op, [a, b]);
      var more := [Tok(op)] + EmitFactor(b) + tail;
      Seqs.Regroup3(EmitTerm(a), [Tok(op)], EmitFactor(b), tail);
      TermPrefix(a, more);
      TermTailStep(a, op, b, tail);
    } else {
      FactorRoundTrip(e, tail);
    }
  }

  /** One turn of the loop of `term` over a printed operator and factor. */
  lemma {:induction false} TermTailStep(a: Ast, op: string, b: Ast, tail: seq<Token>)
    requires IsMultiplicative(op) && WellFormed(b) && |tail| > 0
    ensures TermTail(a, [Tok(op)] + EmitFactor(b) + tail) == TermTail(OpAst(op, [a, b]), tail)
    decreases b, 3
  {
    var ts := [Tok(op)] + EmitFactor(b) + tail;
    Seqs.Regroup2([Tok(op)], EmitFactor(b), tail);
    assert ts[1..] == EmitFactor(b) + tail;
    FactorRoundTrip(b, tail);
  }

  /** `expr` reads a printed expression and hands what follows to its loop,
      unless what follows would extend the last term. */
  lemma {:induction false} ExprPrefix(e: Ast, tail: seq<Token>)
    requires WellFormed(e) && |tail| > 0 && !IsMultiplicative(tail[0].kind)
    ensures Expr(EmitExpr(e) + tail) == ExprTail(e, tail)
    decreases e, ExprRank(e)
  {
    if Level(e) == 2 {
      var a, op, b := e.kids[0], e.tag, e.kids[1];
      assert e == OpAst(op, [a, b]);
      var more := [Tok(op)] + EmitTerm(b) + tail;
      Seqs.Regroup3(EmitExpr(a), [Tok(op)], EmitTerm(b), tail);
      ExprPrefix(a, more);
      ExprTailStep(a, op, b, tail);
    } else {
      TermPrefix(e, tail);
    }
  }

  /** One turn of the loop of `expr` over a printed operator and term. */
  lemma {:induction false} ExprTailStep(a: Ast, op: string, b: Ast, tail: seq<Token>)
    requires IsAdditive(op) && WellFormed(b) && |tail| > 0 && !IsMultiplicative(tail[0].kind)
    ensures ExprTail(a, [Tok(op)] + EmitTerm(b) + tail) == ExprTail(OpAst(op, [a, b]), tail)
    decreases b, 3
  {
    var ts := [Tok(op)] + EmitTerm(b) + tail;
    Seqs.Regroup2([Tok(op)], EmitTerm(b), tail);
    assert ts[1..] == EmitTerm(b) + tail;
    TermPrefix(b, tail);
  }

  /** Parsing a printed expression gives the tree back and stops at the
      first token that cannot continue it. */
  lemma {:induction false} ExprRoundTrip(e: Ast, tail: seq<Token>)
    requires WellFormed(e) && |tail| > 0
    requires !IsAdditive(tail[0].kind) && !IsMultiplicative(tail[0].kind)
    ensures Expr(EmitExpr(e) + tail) == Ok((e, tail))
  {
    ExprPrefix(e, tail);
  }

  // ---------------------------------------------------------------------
  // Associativity and precedence

  /** `a op1 b op2 c` with `+` or `-` groups as `(a op1 b) op2 c`. */
  lemma {:induction false} AdditiveIsLeftAssociative(a: Ast, op1: string, b: Ast, op2: string, c: Ast, tail: seq<Token>)
    requires WellFormed(a) && WellFormed(b) && WellFormed(c)
    requires Level(a) < 2 && Level(b) < 2 && Level(c) < 2
    requires IsAdditive(op1) && IsAdditive(op2)
    requires |tail| > 0 && !IsAdditive(tail[0].kind) && !IsMultiplicative(tail[0].kind)
    ensures Expr(EmitTerm(a) + [Tok(op1)] + EmitTerm(b) + [Tok(op2)] + EmitTerm(c) + tail)
      == Ok((OpAst(op2, [OpAst(op1, [a, b]), c]), tail))
  {
    var ab := OpAst(op1, [a, b]);
    var e := OpAst(op2, [ab, c]);
    assert WellFormed(ab) && Level(ab) == 2;
    assert WellFormed(e) && Level(e) == 2;
    assert EmitExpr(a) == EmitTerm(a);
    assert EmitExpr(ab) == EmitTerm(a) + [Tok(op1)] + EmitTerm(b);
    assert EmitExpr(e) == EmitExpr(ab) + [Tok(op2)] + EmitTerm(c);
    ExprRoundTrip(e, tail);
  }

  /** `a * b * c` and `a / b / c` group to the left too. */
  lemma {:induction false} MultiplicativeIsLeftAssociative(a: Ast, op1: string, b: Ast, op2: string, c: Ast, tail: seq<Token>)
    requires WellFormed(a) && WellFormed(b) && WellFormed(c)
    requires Level(a) == 0 && Level(b) == 0 && Level(c) == 0
    requires IsMultiplicative(op1) && IsMultiplicative(op2)
    requires |tail| > 0 && !IsAdditive(tail[0].kind) && !IsMultiplicative(tail[0].kind)
    ensures Expr(EmitFactor(a) + [Tok(op1)] + EmitFactor(b) + [Tok(op2)] + EmitFactor(c) + tail)
      == Ok((OpAst(op2, [OpAst(op1, [a, b]), c]), tail))
  {
    var ab := OpAst(op1, [a, b]);
    var e := OpAst(op2, [ab, c]);
    assert WellFormed(ab) && Level(ab) == 1;
    assert WellFormed(e) && Level(e) == 1;
    assert EmitTerm(a) == EmitFactor(a);
    assert EmitTerm(ab) == EmitFactor(a) + [Tok(op1)] + EmitFactor(b);
    assert EmitExpr(e) == EmitTerm(ab) + [Tok(op2)] + EmitFactor(c);
    ExprRoundTrip(e, tail);
  }

  /** In `a + b * c` the product is the right operand of the sum. */
  lemma {:induction false} ProductBindsTighter(a: Ast, op1: string, b: Ast, op2: string, c: Ast, tail: seq<Token>)
    requires WellFormed(a) && WellFormed(b) && WellFormed(c)
    requires Level(a) < 2 && Level(b) == 0 && Level(c) == 0
    requires IsAdditive(op1) && IsMultiplicative(op2)
    requires |tail| > 0 && !IsAdditive(tail[0].kind) && !IsMultiplicative(tail[0].kind)
    ensures Expr(EmitTerm(a) + [Tok(op1)] + EmitFactor(b) + [Tok(op2)] + EmitFactor(c) + tail)
      == Ok((OpAst(op1, [a, OpAst(op2, [b, c])]), tail))
  {
    var bc := OpAst(op2, [b, c]);
    var e := OpAst(op1, [a, bc]);
    assert WellFormed(bc) && Level(bc) == 1;
    assert WellFormed(e) && Level(e) == 2;
    assert EmitExpr(a) == EmitTerm(a);
    assert EmitTerm(bc) == EmitFactor(b) + [Tok(op2)] + EmitFactor(c);
    assert EmitTerm(b) == EmitFactor(b);
    assert EmitExpr(e) == EmitTerm(a) + [Tok(op1)] + EmitTerm(bc);
    Seqs.Regroup3(EmitTerm(a) + [Tok(op1)], EmitFactor(b), [Tok(op2)], EmitFactor(c));
    ExprRoundTrip(e, tail);
  }

  /** A parenthesised expression is its own tree: the parentheses add no
      node. */
  lemma {:induction false} ParenthesesAddNoNode(e: Ast, tail: seq<Token>)
    requires WellFormed(e) && |tail| > 0
    ensures Factor([Tok("(")] + EmitExpr(e) + [Tok(")")] + tail) == Ok((e, tail))
  {
    var ts := [Tok("(")] + EmitExpr(e) + [Tok(")")] + tail;
    var close := [Tok(")")] + tail;
    assert ts[1..] == EmitExpr(e) + close by {
      Seqs.Regroup3([Tok("(")], EmitExpr(e), [Tok(")")], tail);
    }
    assert Expr(ts[1..]) == Ok((e, close)) by {
      ExprPrefix(e, close);
    }
    assert close[1..] == tail;
    FactorAtParen(ts, e, close);
  }

  /** A unary minus makes a node with the one operand that follows it. */
  lemma {:induction false} NegationHasOneKid(e: Ast, tail: seq<Token>)
    requires WellFormed(e) && |tail| > 0
    ensures Factor([Tok("-")] + EmitFactor(e) + tail) == Ok((OpAst("-", [e]), tail))
  {
    var n := OpAst("-", [e]);
    assert WellFormed(n) && IsNegation(n);
    assert EmitFactor(n) == [Tok("-")] + EmitFactor(e);
    FactorRoundTrip(n, tail);
  }

  // ---------------------------------------------------------------------
  // Programs

  function EmitProgram(es: seq<Ast>): (r: seq<Token>)
    requires forall i :: 0 <= i < |es| ==> WellFormed(es[i])
    ensures |es| > 0 ==> |r| > 0 && StartsFactor(r[0])
  {
    if |es| == 0 then [] else EmitExpr(es[0]) + [Tok("\n")] + EmitProgram(es[1..])
  }

  /** `program` reads one printed expression per line. */
  lemma {:induction false} ProgramRoundTrip(asts: seq<Ast>, es: seq<Ast>)
    requires forall i :: 0 <= i < |es| ==> WellFormed(es[i])
    ensures Program(asts, EmitProgram(es) + [EofToken]) == Ok((asts + es, [EofToken]))
    decreases |es|
  {
    if |es| == 0 {
      assert EmitProgram(es) + [EofToken] == [EofToken];
      assert asts + es == asts;
    } else {
      var e, rest := es[0], es[1..];
      var after := EmitProgram(rest) + [EofToken];
      Seqs.Regroup3(EmitExpr(e), [Tok("\n")], EmitProgram(rest), [EofToken]);
      ProgramLine(asts, e, after);
      assert forall i :: 0 <= i < |rest| ==> rest[i] == es[i + 1];
      ProgramRoundTrip(asts + [e], rest);
      Seqs.HeadTail(es);
      Seqs.Regroup2(asts, [e], rest);
    }
  }

  /** One printed line: the expression, then its newline. */
  lemma {:induction false} ProgramLine(asts: seq<Ast>, e: Ast, after: seq<Token>)
    requires WellFormed(e) && |after| > 0 && after[0].kind != "\n"
    ensures Program(asts, EmitExpr(e) + ([Tok("\n")] + after)) == Program(asts + [e], after)
  {
    var line := [Tok("\n")] + after;
    var ts := EmitExpr(e) + line;
    assert StartsFactor(ts[0]);
    assert Expr(ts) == Ok((e, line)) by {
      ExprRoundTrip(e, line);
    }
    ProgramAtExpr(asts, ts, e, line);
    assert SkipNewlines(line) == Ok(after) by {
      assert line[1..] == after;
    }
    ProgramAtNewline(asts + [e], line, after);
  }

  /** `parse` gives back the list of the printed expressions. */
  lemma {:induction false} ParseRoundTrip(es: seq<Ast>)
    requires forall i :: 0 <= i < |es| ==> WellFormed(es[i])
    ensures Parse(EmitProgram(es) + [EofToken]) == Ok(ListAst(es))
  {
    ProgramRoundTrip([], es);
    assert [] + es == es;
  }
}
