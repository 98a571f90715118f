/** The recursive-descent parser of the arithmetic language
    (src/Parser.java), with the grammar

        program : '\n'+ program | #empty | expr program
        expr    : term ( ( '+' | '-' ) term )*
        term    : factor ( ( '*' | '/' ) factor )*
        factor  : '-' factor | INTEGER | '(' expr ')'

    The parser's state is the list of tokens from the current one on: the
    current token is always the head. `die` prints a message and exits; it
    is a `SyntaxError` failure here, carrying what the message names. Taking
    a token past the end of the list throws; it is `NoToken`, and so is
    building a parser on an empty list. `Integer.valueOf` throwing on an
    out-of-range lexeme is `BadInt`. */
module ArithParser {
  import opened Results
  import opened Decimal
  import opened ArithLexer

  /** The syntax tree (src/Parser.java:138-177). */
  datatype Ast =
    | ListAst(kids: seq<Ast>)
    | OpAst(tag: string, kids: seq<Ast>)
    | IntAst(val: int)

  /** Every operator node is tagged with the kind of an operator token. */
  predicate OperatorTags(a: Ast)
    decreases a
  {
    match a
    case IntAst(_) => true
    case ListAst(kids) => forall i :: 0 <= i < |kids| ==> OperatorTags(kids[i])
    case OpAst(tag, kids) =>
      (IsAdditive(tag) || IsMultiplicative(tag)) && forall i :: 0 <= i < |kids| ==> OperatorTags(kids[i])
  }

  datatype Failure =
    | SyntaxError(expected: string, found: string)
    | NoToken
    | BadInt(lexeme: string)

  // ---------------------------------------------------------------------
  // Java's `int`

  const MinInt: int := -0x8000_0000
  const MaxInt: int := 0x7fff_ffff

  /** `Integer.valueOf` on ASCII text: an optional sign, then one or more
      ASCII decimal digits, denoting a value `int` can hold. Java also takes
      other Unicode decimal digits here; the lexer's ASCII `\d` keeps them
      out of every `INT` lexeme, so they never reach this call. */
  function IntOf(lexeme: string): (r: Option<int>)
    ensures r.Some? ==> MinInt <= r.value <= MaxInt
  {
    var signed := |lexeme| > 0 && (lexeme[0] == '-' || lexeme[0] == '+');
    var digits := if signed then lexeme[1..] else lexeme;
    if |digits| == 0 || !AllDigits(digits) then None
    else
      var v: int := if signed && lexeme[0] == '-' then -(DigitsValue(digits) as int) else DigitsValue(digits);
      if MinInt <= v <= MaxInt then Some(v) else None
  }

  /** An `int` read from a digit run is the number the digits denote, and
      every non-negative `int` is read back from its decimal spelling. */
  lemma {:induction false} IntOfDigits(lexeme: string)
    requires IsIntText(lexeme)
    ensures IntOf(lexeme).Some? <==> DigitsValue(lexeme) <= MaxInt
    ensures IntOf(lexeme).Some? ==> IntOf(lexeme).value == DigitsValue(lexeme)
  {
  }

  lemma {:induction false} IntOfNatToString(n: nat)
    requires n <= MaxInt
    ensures IntOf(NatToString(n)) == Some(n)
  {
    DigitsValueOfNatToString(n);
    IntOfDigits(NatToString(n));
  }

  // ---------------------------------------------------------------------
  // Tokens

  /** What one parse step returns: the tree and the tokens from the new
      current one on. */
  type Step = Result<(Ast, seq<Token>), Failure>

  /** `ts` is what is left of `from` once some tokens are taken. */
  predicate Suffix(ts: seq<Token>, from: seq<Token>) {
    0 < |ts| <= |from| && ts == from[|from| - |ts|..]
  }

  /** `consume` (src/Parser.java:122-131) with `nextToken`
      (src/Parser.java:114-116): takes the current token when it has the
      expected kind. */
  function Consume(kind: string, ts: seq<Token>): (r: Result<seq<Token>, Failure>)
    requires |ts| > 0
    ensures r.Ok? <==> ts[0].kind == kind && |ts| > 1
    ensures r.Ok? ==> r.value == ts[1..]
    ensures ts[0].kind != kind ==> r == Err(SyntaxError(kind, ts[0].lexeme))
  {
    if ts[0].kind == kind then
      if |ts| > 1 then Ok(ts[1..]) else Err(NoToken)
    else Err(SyntaxError(kind, ts[0].lexeme))
  }

  // ---------------------------------------------------------------------
  // Expressions

  predicate IsAdditive(kind: string) {
    kind == "+" || kind == "-"
  }

  predicate IsMultiplicative(kind: string) {
    kind == "*" || kind == "/"
  }

  /** `expr` (src/Parser.java:66-77). */
  function Expr(ts: seq<Token>): (r: Step)
    requires |ts| > 0
    ensures r.Ok? ==> Suffix(r.value.1, ts) && |r.value.1| < |ts|
    ensures r.Ok? ==> OperatorTags(r.value.0)
    decreases |ts|, 2
  {
    var (t, rest) :- Term(ts);
    ExprTail(t, rest)
  }

  /** The `while` loop of `expr`: `left` is the tree so far. */
  function ExprTail(left: Ast, ts: seq<Token>): (r: Step)
    requires |ts| > 0
    ensures r.Ok? ==> Suffix(r.value.1, ts)
    ensures r.Ok? && OperatorTags(left) ==> OperatorTags(r.value.0)
    decreases |ts|, 0
  {
    if IsAdditive(ts[0].kind) then
      var op := ts[0].kind;
      var ts1 :- Consume(op, ts);
      var (right, rest) :- Term(ts1);
      ExprTail(OpAst(op, [left, right]), rest)
    else Ok((left, ts))
  }

  /** `term` (src/Parser.java:79-90). */
  function Term(ts: seq<Token>): (r: Step)
    requires |ts| > 0
    ensures r.Ok? ==> Suffix(r.value.1, ts) && |r.value.1| < |ts|
    ensures r.Ok? ==> OperatorTags(r.value.0)
    decreases |ts|, 1
  {
    var (f, rest) :- Factor(ts);
    TermTail(f, rest)
  }

  /** The `while` loop of `term`. */
  function TermTail(left: Ast, ts: seq<Token>): (r: Step)
    requires |ts| > 0
    ensures r.Ok? ==> Suffix(r.value.1, ts)
    ensures r.Ok? && OperatorTags(left) ==> OperatorTags(r.value.0)
    decreases |ts|, 0
  {
    if IsMultiplicative(ts[0].kind) then
      var op := ts[0].kind;
      var ts1 :- Consume(op, ts);
      var (right, rest) :- Factor(ts1);
      TermTail(OpAst(op, [left, right]), rest)
    else Ok((left, ts))
  }

  /** `factor` (src/Parser.java:92-112). */
  function Factor(ts: seq<Token>): (r: Step)
    requires |ts| > 0
    ensures r.Ok? ==> Suffix(r.value.1, ts) && |r.value.1| < |ts|
    ensures r.Ok? ==> OperatorTags(r.value.0)
    decreases |ts|, 0
  {
    if ts[0].kind == "-" then
      var ts1 :- Consume("-", ts);
      var (f, rest) :- Factor(ts1);
      Ok((OpAst("-", [f]), rest))
    else if ts[0].kind == "INT" then
      var v :- IntValue(ts[0].lexeme);
      var rest :- Consume("INT", ts);
      Ok((IntAst(v), rest))
    else
      var ts1 :- Consume("(", ts);
      var (e, ts2) :- Expr(ts1);
      var rest :- Consume(")", ts2);
      Ok((e, rest))
  }

  function IntValue(lexeme: string): (r: Result<int, Failure>)
    ensures r.Ok? <==> IntOf(lexeme).Some?
    ensures r.Ok? ==> r.value == IntOf(lexeme).value
    ensures r.Err? ==> r.error == BadInt(lexeme)
  {
    match IntOf(lexeme)
    case Some(v) => Ok(v)
    case None => Err(BadInt(lexeme))
  }

  // ---------------------------------------------------------------------
  // Programs

  /** `while (peek("\n")) consume("\n")`. */
  function SkipNewlines(ts: seq<Token>): (r: Result<seq<Token>, Failure>)
    requires |ts| > 0
    ensures r.Ok? ==> Suffix(r.value, ts) && r.value[0].kind != "\n"
    ensures r.Ok? && ts[0].kind == "\n" ==> |r.value| < |ts|
    ensures r.Err? ==> r.error == NoToken
    decreases |ts|
  {
    if ts[0].kind == "\n" then
      var ts1 :- Consume("\n", ts);
      var r := SkipNewlines(ts1);
      if r.Ok? then SuffixOfTail(ts, r.value); r else r
    else Ok(ts)
  }

  /** What is left of the tail of `ts` is left of `ts`. */
  lemma SuffixOfTail(ts: seq<Token>, r: seq<Token>)
    requires |ts| > 1 && Suffix(r, ts[1..])
    ensures Suffix(r, ts)
  {
    assert ts[1..][|ts| - 1 - |r|..] == ts[|ts| - |r|..];
  }

  /** `program` (src/Parser.java:51-64): the trees parsed so far are `asts`. */
  function Program(asts: seq<Ast>, ts: seq<Token>): (r: Result<(seq<Ast>, seq<Token>), Failure>)
    requires |ts| > 0
    ensures r.Ok? ==> Suffix(r.value.1, ts) && asts <= r.value.0
    ensures r.Ok? && (forall i :: 0 <= i < |asts| ==> OperatorTags(asts[i])) ==>
      forall i :: 0 <= i < |r.value.0| ==> OperatorTags(r.value.0[i])
    decreases |ts|
  {
    if ts[0].kind == "\n" then
      var ts1 :- SkipNewlines(ts);
      Program(asts, ts1)
    else if ts[0].kind == "<EOF>" then Ok((asts, ts))
    else
      var (e, rest) :- Expr(ts);
      Program(asts + [e], rest)
  }

  /** `parse` (src/Parser.java:42-49), with the parser built on `ts`
      (src/Parser.java:35-39). */
  function Parse(ts: seq<Token>): (r: Result<Ast, Failure>)
    ensures r.Ok? ==> r.value.ListAst? && OperatorTags(r.value)
  {
    if |ts| == 0 then Err(NoToken)
    else
      var (asts, rest) :- Program([], ts);
      if rest[0].kind != "<EOF>" then Err(SyntaxError("<EOF>", rest[0].lexeme))
      else Ok(ListAst(asts))
  }

  // ---------------------------------------------------------------------
  // What `program` and `parse` guarantee

  /** `factor` at an opening parenthesis. */
  lemma FactorAtParen(ts: seq<Token>, e: Ast, rest: seq<Token>)
    requires |ts| > 1 && ts[0].kind == "("
    requires Expr(ts[1..]) == Ok((e, rest)) && |rest| > 1 && rest[0].kind == ")"
    ensures Factor(ts) == Ok((e, rest[1..]))
  {
  }

  /** One turn of `program` at an expression. */
  lemma ProgramAtExpr(asts: seq<Ast>, ts: seq<Token>, e: Ast, rest: seq<Token>)
    requires |ts| > 0 && ts[0].kind != "\n" && ts[0].kind != "<EOF>"
    requires Expr(ts) == Ok((e, rest))
    ensures Program(asts, ts) == Program(asts + [e], rest)
  {
  }

  /** One turn of `program` at a run of newlines. */
  lemma ProgramAtNewline(asts: seq<Ast>, ts: seq<Token>, next: seq<Token>)
    requires |ts| > 0 && ts[0].kind == "\n"
    requires SkipNewlines(ts) == Ok(next)
    ensures Program(asts, ts) == Program(asts, next)
  {
  }

  /** An extra `\n` anywhere `program` starts changes nothing: blank lines
      are skipped. */
  lemma {:induction false} NewlineIsSkipped(asts: seq<Ast>, ts: seq<Token>)
    requires |ts| > 0
    ensures Program(asts, [Token("\n", "\n")] + ts) == Program(asts, ts)
  {
    var nl := [Token("\n", "\n")] + ts;
    assert nl[1..] == ts;
    assert SkipNewlines(nl) == SkipNewlines(ts);
    if ts[0].kind != "\n" {
      assert SkipNewlines(ts) == Ok(ts);
    }
  }

  /** `program` returns only at the `<EOF>` token, keeping the trees it was
      given in front of the ones it parses. */
  lemma {:induction false} ProgramStopsAtEof(asts: seq<Ast>, ts: seq<Token>)
    requires |ts| > 0
    ensures Program(asts, ts).Ok? ==> Program(asts, ts).value.1[0].kind == "<EOF>"
    decreases |ts|
  {
    if ts[0].kind == "\n" {
      if SkipNewlines(ts).Ok? {
        ProgramStopsAtEof(asts, SkipNewlines(ts).value);
      }
    } else if ts[0].kind != "<EOF>" {
      if Expr(ts).Ok? {
        var (e, rest) := Expr(ts).value;
        ProgramStopsAtEof(asts + [e], rest);
      }
    }
  }

  /** So the end-of-file check of `parse` never fails: `parse` fails exactly
      when `program` does, with the same failure. */
  lemma {:induction false} EofCheckIsRedundant(ts: seq<Token>)
    requires |ts| > 0
    ensures Parse(ts).Ok? <==> Program([], ts).Ok?
    ensures Parse(ts).Ok? ==> Parse(ts).value == ListAst(Program([], ts).value.0)
    ensures Parse(ts).Err? ==> Parse(ts).error == Program([], ts).error
  {
    ProgramStopsAtEof([], ts);
  }
}
