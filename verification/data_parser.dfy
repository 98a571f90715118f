/** The recursive-descent parser of the literal-data language (main.py:24-147).

    The parser of the source works on a shared token list that it pops from the
    front; here every parsing function takes the remaining tokens and returns
    what it built together with the tokens it left. Every fatal exit (a
    diagnostic and `sys.exit(1)`, or an exception caught by a bare `except`) is
    `None`. */
module DataParser {
  import opened Results
  import opened DataTokens
  import opened DataAst

  /** A parsed value and the tokens after it. */
  datatype Parsed<T> = Parsed(value: T, rest: seq<Token>)

  /** `rest` is what is left of `ts` after at least one token was consumed. */
  predicate Consumes(ts: seq<Token>, rest: seq<Token>) {
    |rest| < |ts| && rest == ts[|ts| - |rest|..]
  }

  /** `rest` is what is left of `ts` after zero or more tokens were consumed. */
  predicate Leaves(ts: seq<Token>, rest: seq<Token>) {
    |rest| <= |ts| && rest == ts[|ts| - |rest|..]
  }

  lemma ConsumesThenLeaves(ts: seq<Token>, us: seq<Token>, vs: seq<Token>)
    requires Consumes(ts, us) && Leaves(us, vs)
    ensures Consumes(ts, vs)
  {
    assert ts[|ts| - |us|..][|us| - |vs|..] == ts[|ts| - |vs|..];
  }

  /** `rest` is what is left of `ts` after a part ending in a `closer` token. */
  predicate ClosedBy(ts: seq<Token>, rest: seq<Token>, closer: TokenKind) {
    Consumes(ts, rest) && ts[|ts| - |rest| - 1].kind == closer
  }

  lemma LeavesThenClosed(ts: seq<Token>, us: seq<Token>, vs: seq<Token>, closer: TokenKind)
    requires Leaves(ts, us) && ClosedBy(us, vs, closer)
    ensures ClosedBy(ts, vs, closer)
  {
    assert ts[|ts| - |us|..][|us| - |vs|..] == ts[|ts| - |vs|..];
    assert ts[|ts| - |us|..][|us| - |vs| - 1] == ts[|ts| - |vs| - 1];
  }

  /** The kinds a literal can start with; every other token makes `literal()`
      raise (main.py:75-76). */
  predicate StartsLiteral(k: TokenKind) {
    || k == LEFT_SQUARE_BRACKET || k == LEFT_CURLY_BRACE || k == PERCENTAGE_LEFT_CURLY_BRACE
    || k == COLON || k == RIGHT_ARROW || k == EOF
    || k == ATOM || k == KEY || k == VALUE || k == INTEGER || k == BOOLEAN
  }

  /** `check_token(k)`: the next token when it has kind `k`, which is then consumed. */
  function CheckToken(ts: seq<Token>, k: TokenKind): (r: Parsed<Option<Token>>)
    ensures r.value.Some? <==> |ts| > 0 && ts[0].kind == k
    ensures r.value.Some? ==> r.value.value == ts[0] && r.rest == ts[1..]
    ensures r.value.None? ==> r.rest == ts
  {
    if |ts| > 0 && ts[0].kind == k then Parsed(Some(ts[0]), ts[1..]) else Parsed(None, ts)
  }

  /** After a lone `:`, `=>` or `<EOF>` has been consumed, `literal()` returns
      `check_token` of the same kind: `None`, or the bare token when the
      kind is doubled (main.py:51-56, main.py:66-68). */
  function Degenerate(ts: seq<Token>, k: TokenKind): (r: Parsed<Lit>)
    ensures r.value.Nothing? <==> !(|ts| > 0 && ts[0].kind == k)
    ensures r.value.Raw? ==> r.value.token == ts[0] && r.rest == ts[1..]
    ensures r.value.Nothing? ==> r.rest == ts
    ensures !r.value.Node?
  {
    var c := CheckToken(ts, k);
    Parsed(if c.value.Some? then Raw(c.value.value) else Nothing, c.rest)
  }

  /** The separator after a container item: an optional comma, which must not
      be followed directly by the closer (main.py:91-94, main.py:104-107,
      main.py:117-120). */
  function Separator(ts: seq<Token>, closer: TokenKind): (r: Option<seq<Token>>)
    ensures r.Some? <==> !(|ts| > 1 && ts[0].kind == COMMA && ts[1].kind == closer)
    ensures r.Some? ==> Leaves(ts, r.value)
    ensures r.Some? && |ts| > 0 && ts[0].kind == COMMA ==> r.value == ts[1..]
    ensures r.Some? && !(|ts| > 0 && ts[0].kind == COMMA) ==> r.value == ts
  {
    if |ts| > 0 && ts[0].kind == COMMA then
      if |ts| > 1 && ts[1].kind == closer then None else Some(ts[1..])
    else Some(ts)
  }

  /** `literal()` on a token that does not open a container (main.py:51-76):
      a primitive element, a degenerate `:`, `=>` or `<EOF>`, or failure. */
  function ParseLeaf(ts: seq<Token>): (r: Option<Parsed<Lit>>)
    requires |ts| > 0
    ensures r.Some? <==> StartsLiteral(ts[0].kind) && !IsOpener(ts[0].kind)
    ensures r.Some? ==> Consumes(ts, r.value.rest)
  {
    var t := ts[0];
    var rest := ts[1..];
    assert Consumes(ts, rest);
    match t.kind
    case COLON => Some(Degenerate(rest, COLON))
    case RIGHT_ARROW => Some(Degenerate(rest, RIGHT_ARROW))
    case ATOM => Some(Parsed(Node(AtomLit(t.lexeme)), rest))
    case KEY => Some(Parsed(Node(KeyLit(t.lexeme)), rest))
    case VALUE => Some(Parsed(Node(ValueLit(t.lexeme)), rest))
    case EOF => Some(Degenerate(rest, EOF))
    case INTEGER => Some(Parsed(Node(IntegerLit(t.lexeme)), rest))
    case BOOLEAN => Some(Parsed(Node(BooleanLit(t.lexeme)), rest))
    case _ => None
  }

  predicate IsOpener(k: TokenKind) {
    k == LEFT_SQUARE_BRACKET || k == LEFT_CURLY_BRACE || k == PERCENTAGE_LEFT_CURLY_BRACE
  }

  /** The tokens after an opener and the second `check_token` of the same
      opener that the container parsers start with (main.py:88, main.py:102,
      main.py:115). */
  function AfterOpener(ts: seq<Token>): (r: seq<Token>)
    requires |ts| > 0
    ensures Consumes(ts, r)
    ensures |ts| > 1 && ts[1].kind == ts[0].kind ==> r == ts[2..]
    ensures !(|ts| > 1 && ts[1].kind == ts[0].kind) ==> r == ts[1..]
  {
    if |ts| > 1 && ts[1].kind == ts[0].kind then ts[2..] else ts[1..]
  }

  /** `literal()` (main.py:40-78). */
  function ParseLiteral(ts: seq<Token>): (r: Option<Parsed<Lit>>)
    ensures r.Some? ==> |ts| > 0 && StartsLiteral(ts[0].kind) && Consumes(ts, r.value.rest)
    ensures |ts| > 0 && !StartsLiteral(ts[0].kind) ==> r.None?
    decreases |ts|, 1
  {
    if |ts| == 0 then None
    else if IsOpener(ts[0].kind) then ParseContainer(ts)
    else ParseLeaf(ts)
  }

  /** A list, tuple or map literal, from its opener to its closer
      (main.py:42-50, main.py:86-124). */
  function ParseContainer(ts: seq<Token>): (r: Option<Parsed<Lit>>)
    requires |ts| > 0 && IsOpener(ts[0].kind)
    ensures r.Some? ==> Consumes(ts, r.value.rest) && r.value.value.Node?
    decreases |ts|, 0
  {
    var body := AfterOpener(ts);
    match ts[0].kind
    case LEFT_SQUARE_BRACKET =>
      var p :- ParseItems(body, RIGHT_SQUARE_BRACKET);
      ConsumesThenLeaves(ts, body, p.rest);
      Some(Parsed(Node(ListLit(p.value)), p.rest))
    case LEFT_CURLY_BRACE =>
      var p :- ParseItems(body, RIGHT_CURLY_BRACE);
      ConsumesThenLeaves(ts, body, p.rest);
      Some(Parsed(Node(TupleLit(p.value)), p.rest))
    case PERCENTAGE_LEFT_CURLY_BRACE =>
      var p :- ParsePairs(body);
      ConsumesThenLeaves(ts, body, p.rest);
      Some(Parsed(Node(MapLit(p.value)), p.rest))
  }

  /** The body of a list or tuple after its opener(s): items up to `closer`
      (main.py:86-111). A result always ends by consuming `closer`. */
  function ParseItems(ts: seq<Token>, closer: TokenKind): (r: Option<Parsed<seq<Lit>>>)
    ensures r.Some? ==> ClosedBy(ts, r.value.rest, closer)
    decreases |ts|, 2
  {
    if |ts| == 0 then None
    else if ts[0].kind == closer then Some(Parsed([], ts[1..]))
    else
      var p :- ParseLiteral(ts);
      var after :- Separator(p.rest, closer);
      var q :- ParseItems(after, closer);
      ConsumesThenLeaves(ts, p.rest, after);
      LeavesThenClosed(ts, after, q.rest, closer);
      Some(Parsed([p.value] + q.value, q.rest))
  }

  /** `parse_key_pair()` (main.py:126-144): a key literal, then `=>` or `:`
      or nothing, then a value literal. Fails when no token follows the key. */
  function ParseKeyPair(ts: seq<Token>): (r: Option<Parsed<KeyPair>>)
    ensures r.Some? ==> Consumes(ts, r.value.rest)
    decreases |ts|, 2
  {
    var k :- ParseLiteral(ts);
    if |k.rest| == 0 then None
    else
      var from := SkipConnector(k.rest);
      var v :- ParseLiteral(from);
      ConsumesThenLeaves(ts, k.rest, from);
      ConsumesThenLeaves(ts, from, v.rest);
      Some(Parsed(KeyPair(k.value, v.value), v.rest))
  }

  /** The tokens after the optional `=>` or `:` between a key and its value
      (main.py:129-138). */
  function SkipConnector(ts: seq<Token>): (r: seq<Token>)
    ensures Leaves(ts, r)
    ensures |ts| > 0 && (ts[0].kind == RIGHT_ARROW || ts[0].kind == COLON) ==> r == ts[1..]
    ensures !(|ts| > 0 && (ts[0].kind == RIGHT_ARROW || ts[0].kind == COLON)) ==> r == ts
  {
    if |ts| > 0 && (ts[0].kind == RIGHT_ARROW || ts[0].kind == COLON) then ts[1..] else ts
  }

  /** The body of a map after its opener(s): key pairs up to `}`
      (main.py:113-124). */
  function ParsePairs(ts: seq<Token>): (r: Option<Parsed<seq<KeyPair>>>)
    ensures r.Some? ==> ClosedBy(ts, r.value.rest, RIGHT_CURLY_BRACE)
    decreases |ts|, 3
  {
    if |ts| == 0 then None
    else if ts[0].kind == RIGHT_CURLY_BRACE then Some(Parsed([], ts[1..]))
    else
      var p :- ParseKeyPair(ts);
      var after :- Separator(p.rest, RIGHT_CURLY_BRACE);
      var q :- ParsePairs(after);
      ConsumesThenLeaves(ts, p.rest, after);
      LeavesThenClosed(ts, after, q.rest, RIGHT_CURLY_BRACE);
      Some(Parsed([p.value] + q.value, q.rest))
  }

  /** `sentence()` (main.py:80-84): every token kind is a key of the token
      table, so the loop runs until no token is left. */
  function ParseSentence(ts: seq<Token>): (r: Option<seq<Lit>>)
    ensures |ts| > 0 && !StartsLiteral(ts[0].kind) ==> r.None?
    ensures r.Some? ==> |r.value| <= |ts|
    decreases |ts|
  {
    if |ts| == 0 then Some([])
    else
      var p :- ParseLiteral(ts);
      var more :- ParseSentence(p.rest);
      Some([p.value] + more)
  }

  // ---------------------------------------------------------------------
  // One step of the container loops

  /** A list or tuple body is its first literal followed by the items of what
      comes after the separator: items are kept in source order. */
  lemma {:induction false} ItemsNext(ts: seq<Token>, closer: TokenKind, l: Lit, after: seq<Token>, next: seq<Token>)
    requires |ts| > 0 && ts[0].kind != closer
    requires ParseLiteral(ts) == Some(Parsed(l, after))
    requires Separator(after, closer) == Some(next)
    ensures ParseItems(next, closer).None? ==> ParseItems(ts, closer).None?
    ensures ParseItems(next, closer).Some? ==>
      var q := ParseItems(next, closer).value;
      ParseItems(ts, closer) == Some(Parsed([l] + q.value, q.rest))
  {
  }

  /** The same for the key pairs of a map body. */
  lemma {:induction false} PairsNext(ts: seq<Token>, p: KeyPair, after: seq<Token>, next: seq<Token>)
    requires |ts| > 0 && ts[0].kind != RIGHT_CURLY_BRACE
    requires ParseKeyPair(ts) == Some(Parsed(p, after))
    requires Separator(after, RIGHT_CURLY_BRACE) == Some(next)
    ensures ParsePairs(next).None? ==> ParsePairs(ts).None?
    ensures ParsePairs(next).Some? ==>
      var q := ParsePairs(next).value;
      ParsePairs(ts) == Some(Parsed([p] + q.value, q.rest))
  {
  }

  /** A key pair is a key literal, then at most one `=>` or `:`, then a value
      literal; with nothing after the key it fails. */
  lemma {:induction false} KeyPairParts(ts: seq<Token>, key: Lit, rest: seq<Token>)
    requires ParseLiteral(ts) == Some(Parsed(key, rest))
    ensures |rest| == 0 ==> ParseKeyPair(ts).None?
    ensures |rest| > 0 && ParseLiteral(SkipConnector(rest)).None? ==> ParseKeyPair(ts).None?
    ensures |rest| > 0 && ParseLiteral(SkipConnector(rest)).Some? ==>
      var v := ParseLiteral(SkipConnector(rest)).value;
      ParseKeyPair(ts) == Some(Parsed(KeyPair(key, v.value), v.rest))
  {
  }

  /** A container whose opener is not repeated parses its body from the
      token after the opener. */
  lemma {:induction false} ContainerBody(ts: seq<Token>)
    requires |ts| > 1 && IsOpener(ts[0].kind) && ts[1].kind != ts[0].kind
    ensures ParseLiteral(ts) == ParseContainer(ts)
    ensures AfterOpener(ts) == ts[1..]
  {
  }

  /** A sentence is its first literal followed by the literals of the rest. */
  lemma {:induction false} SentenceNext(ts: seq<Token>, l: Lit, rest: seq<Token>)
    requires ParseLiteral(ts) == Some(Parsed(l, rest))
    ensures ParseSentence(rest).None? ==> ParseSentence(ts).None?
    ensures ParseSentence(rest).Some? ==> ParseSentence(ts) == Some([l] + ParseSentence(rest).value)
  {
  }

  // ---------------------------------------------------------------------
  // The quirks of the container parsers

  /** A second copy of a container's opener right after the first is
      swallowed: `[[1]` reads as `[1]` (main.py:42-50, main.py:88,
      main.py:102, main.py:115). */
  lemma {:induction false} DoubledOpenerIsSwallowed(a: Token, b: Token, ts: seq<Token>)
    requires IsOpener(a.kind) && b.kind == a.kind
    requires |ts| == 0 || ts[0].kind != a.kind
    ensures ParseLiteral([a, b] + ts) == ParseLiteral([a] + ts)
  {
    var one := [a] + ts;
    var two := [a, b] + ts;
    assert AfterOpener(two) == ts by {
      assert two[2..] == ts;
    }
    assert AfterOpener(one) == ts by {
      assert one[1..] == ts;
    }
    assert ParseLiteral(two) == ParseContainer(two);
    assert ParseLiteral(one) == ParseContainer(one);
  }

  /** A comma directly before a list's or tuple's closer is an error
      (main.py:91-94, main.py:104-107). */
  lemma {:induction false} TrailingCommaFails(ts: seq<Token>, closer: TokenKind, l: Lit, c: Token, d: Token, tail: seq<Token>)
    requires closer == RIGHT_SQUARE_BRACKET || closer == RIGHT_CURLY_BRACE
    requires ParseLiteral(ts) == Some(Parsed(l, [c, d] + tail))
    requires c.kind == COMMA && d.kind == closer
    ensures ParseItems(ts, closer).None?
  {
    assert Separator([c, d] + tail, closer).None?;
  }

  /** A comma directly before a map's closer is an error (main.py:117-120). */
  lemma {:induction false} TrailingCommaFailsInMap(ts: seq<Token>, p: KeyPair, c: Token, d: Token, tail: seq<Token>)
    requires ParseKeyPair(ts) == Some(Parsed(p, [c, d] + tail))
    requires c.kind == COMMA && d.kind == RIGHT_CURLY_BRACE
    ensures ParsePairs(ts).None?
  {
    assert |ts| > 0 && ts[0].kind != RIGHT_CURLY_BRACE;
    assert Separator([c, d] + tail, RIGHT_CURLY_BRACE).None?;
  }
}
