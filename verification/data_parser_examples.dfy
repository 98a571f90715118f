/** The parser on small token streams, each ending with the EOF token the
    tokenizer appends. The parser never looks at a token's offset, so the
    offsets here are all 0. */
module DataParserExamples {
  import opened Results
  import opened DataTokens
  import opened DataAst
  import opened DataParser

  function Tok(k: TokenKind, lexeme: string): Token {
    Token(k, lexeme, 0)
  }

  const Eof := Tok(EOF, "<EOF>")
  const LSquare := Tok(LEFT_SQUARE_BRACKET, "[")
  const RSquare := Tok(RIGHT_SQUARE_BRACKET, "]")
  const LMap := Tok(PERCENTAGE_LEFT_CURLY_BRACE, "%{")
  const RCurly := Tok(RIGHT_CURLY_BRACE, "}")
  const Comma := Tok(COMMA, ",")
  const Colon := Tok(COLON, ":")
  const Arrow := Tok(RIGHT_ARROW, "=>")

  function Int(text: string): Token { Tok(INTEGER, text) }

  function IntNode(text: string): Lit { Node(IntegerLit(text)) }

  // ---------------------------------------------------------------------
  // Single steps, with the rest of the stream left symbolic

  lemma {:induction false} IntStep(text: string, rest: seq<Token>)
    ensures ParseLiteral([Int(text)] + rest) == Some(Parsed(IntNode(text), rest))
  {
    assert ([Int(text)] + rest)[1..] == rest;
  }

  lemma {:induction false} CloseStep(closer: Token, rest: seq<Token>)
    ensures ParseItems([closer] + rest, closer.kind) == Some(Parsed([], rest))
  {
    assert ([closer] + rest)[1..] == rest;
  }

  /** The EOF token is read as a literal that yields `None`. */
  lemma {:induction false} EndExample()
    ensures ParseSentence([Eof]) == Some([Nothing])
  {
    assert [Eof][1..] == [];
    assert ParseLiteral([Eof]) == Some(Parsed(Nothing, []));
    assert ParseSentence([]) == Some([]);
    SentenceNext([Eof], Nothing, []);
    assert [Nothing] + [] == [Nothing];
  }

  // ---------------------------------------------------------------------
  // Examples

  /** A list whose opener is not doubled. */
  lemma {:induction false} ListStep(body: seq<Token>, items: seq<Lit>, rest: seq<Token>)
    requires |body| > 0 && body[0].kind != LEFT_SQUARE_BRACKET
    requires ParseItems(body, RIGHT_SQUARE_BRACKET) == Some(Parsed(items, rest))
    ensures ParseLiteral([LSquare] + body) == Some(Parsed(Node(ListLit(items)), rest))
  {
    var ts := [LSquare] + body;
    ContainerBody(ts);
    assert ts[1..] == body;
  }

  /** A sentence that is one literal followed by the EOF token. */
  lemma {:induction false} OneLiteral(ts: seq<Token>, l: Lit)
    requires ParseLiteral(ts) == Some(Parsed(l, [Eof]))
    ensures ParseSentence(ts) == Some([l, Nothing])
  {
    EndExample();
    SentenceNext(ts, l, [Eof]);
    assert [l] + [Nothing] == [l, Nothing];
  }

  /** An integer item without a comma after it. */
  lemma {:induction false} IntItem(text: string, rest: seq<Token>, items: seq<Lit>, left: seq<Token>)
    requires |rest| > 0 && rest[0].kind != COMMA
    requires ParseItems(rest, RIGHT_SQUARE_BRACKET) == Some(Parsed(items, left))
    ensures ParseItems([Int(text)] + rest, RIGHT_SQUARE_BRACKET) == Some(Parsed([IntNode(text)] + items, left))
  {
    IntStep(text, rest);
    assert Separator(rest, RIGHT_SQUARE_BRACKET) == Some(rest);
    ItemsNext([Int(text)] + rest, RIGHT_SQUARE_BRACKET, IntNode(text), rest, rest);
  }

  /** An integer item followed by a comma. */
  lemma {:induction false} IntItemComma(text: string, rest: seq<Token>, items: seq<Lit>, left: seq<Token>)
    requires |rest| > 0 && rest[0].kind != RIGHT_SQUARE_BRACKET
    requires ParseItems(rest, RIGHT_SQUARE_BRACKET) == Some(Parsed(items, left))
    ensures ParseItems([Int(text), Comma] + rest, RIGHT_SQUARE_BRACKET) == Some(Parsed([IntNode(text)] + items, left))
  {
    var after := [Comma] + rest;
    IntStep(text, after);
    CommaSkipped(rest);
    ItemsNext([Int(text)] + after, RIGHT_SQUARE_BRACKET, IntNode(text), after, rest);
    IntCommaTokens(text, rest);
  }

  /** A comma not followed by the closer is skipped. */
  lemma {:induction false} CommaSkipped(rest: seq<Token>)
    requires |rest| > 0 && rest[0].kind != RIGHT_SQUARE_BRACKET
    ensures Separator([Comma] + rest, RIGHT_SQUARE_BRACKET) == Some(rest)
  {
    assert ([Comma] + rest)[1..] == rest;
  }

  lemma {:induction false} IntCommaTokens(text: string, rest: seq<Token>)
    ensures [Int(text)] + ([Comma] + rest) == [Int(text), Comma] + rest
  {
  }

  // ---------------------------------------------------------------------
  // Optional commas

  lemma {:induction false} LastItemTwo()
    ensures ParseItems([Int("2"), RSquare, Eof], RIGHT_SQUARE_BRACKET) == Some(Parsed([IntNode("2")], [Eof]))
  {
    CloseStep(RSquare, [Eof]);
    IntItem("2", [RSquare, Eof], [], [Eof]);
    assert [IntNode("2")] + [] == [IntNode("2")];
    assert [Int("2")] + [RSquare, Eof] == [Int("2"), RSquare, Eof];
  }

  lemma {:induction false} ItemsWithoutComma()
    ensures ParseItems([Int("1"), Int("2"), RSquare, Eof], RIGHT_SQUARE_BRACKET)
         == Some(Parsed([IntNode("1"), IntNode("2")], [Eof]))
  {
    var two := [Int("2"), RSquare, Eof];
    assert [Int("1")] + two == [Int("1"), Int("2"), RSquare, Eof];
    assert [IntNode("1")] + [IntNode("2")] == [IntNode("1"), IntNode("2")];
    LastItemTwo();
    IntItem("1", two, [IntNode("2")], [Eof]);
  }

  lemma {:induction false} ItemsWithComma()
    ensures ParseItems([Int("1"), Comma, Int("2"), RSquare, Eof], RIGHT_SQUARE_BRACKET)
         == Some(Parsed([IntNode("1"), IntNode("2")], [Eof]))
  {
    var two := [Int("2"), RSquare, Eof];
    assert [Int("1"), Comma] + two == [Int("1"), Comma, Int("2"), RSquare, Eof];
    assert [IntNode("1")] + [IntNode("2")] == [IntNode("1"), IntNode("2")];
    LastItemTwo();
    IntItemComma("1", two, [IntNode("2")], [Eof]);
  }

  /** `[1 2]` and `[1, 2]` give the same list: commas are optional. */
  lemma {:induction false} OptionalCommaExample()
    ensures ParseSentence([LSquare, Int("1"), Int("2"), RSquare, Eof])
         == Some([Node(ListLit([IntNode("1"), IntNode("2")])), Nothing])
    ensures ParseSentence([LSquare, Int("1"), Comma, Int("2"), RSquare, Eof])
         == Some([Node(ListLit([IntNode("1"), IntNode("2")])), Nothing])
  {
    WithoutComma();
    WithComma();
  }

  lemma {:induction false} WithoutComma()
    ensures ParseSentence([LSquare, Int("1"), Int("2"), RSquare, Eof])
         == Some([Node(ListLit([IntNode("1"), IntNode("2")])), Nothing])
  {
    var body := [Int("1"), Int("2"), RSquare, Eof];
    assert [LSquare] + body == [LSquare, Int("1"), Int("2"), RSquare, Eof];
    ItemsWithoutComma();
    ListStep(body, [IntNode("1"), IntNode("2")], [Eof]);
    OneLiteral([LSquare] + body, Node(ListLit([IntNode("1"), IntNode("2")])));
  }

  lemma {:induction false} WithComma()
    ensures ParseSentence([LSquare, Int("1"), Comma, Int("2"), RSquare, Eof])
         == Some([Node(ListLit([IntNode("1"), IntNode("2")])), Nothing])
  {
    var body := [Int("1"), Comma, Int("2"), RSquare, Eof];
    assert [LSquare] + body == [LSquare, Int("1"), Comma, Int("2"), RSquare, Eof];
    ItemsWithComma();
    ListStep(body, [IntNode("1"), IntNode("2")], [Eof]);
    OneLiteral([LSquare] + body, Node(ListLit([IntNode("1"), IntNode("2")])));
  }

  // ---------------------------------------------------------------------
  // The doubled opener

  function List(items: seq<Lit>): Lit { Node(ListLit(items)) }

  /** An integer item directly before the closer. */
  lemma {:induction false} LastItem(text: string, rest: seq<Token>)
    ensures ParseItems([Int(text), RSquare] + rest, RIGHT_SQUARE_BRACKET) == Some(Parsed([IntNode(text)], rest))
  {
    CloseStep(RSquare, rest);
    IntItem(text, [RSquare] + rest, [], rest);
    assert [IntNode(text)] + [] == [IntNode(text)];
    assert [Int(text)] + ([RSquare] + rest) == [Int(text), RSquare] + rest;
  }

  /** `[1]` followed by `rest`. */
  lemma {:induction false} ListOfOne(text: string, rest: seq<Token>)
    ensures ParseLiteral([LSquare, Int(text), RSquare] + rest) == Some(Parsed(List([IntNode(text)]), rest))
  {
    LastItem(text, rest);
    ListStep([Int(text), RSquare] + rest, [IntNode(text)], rest);
    ListOfOneTokens(text, rest);
  }

  lemma {:induction false} ListOfOneTokens(text: string, rest: seq<Token>)
    ensures [LSquare] + ([Int(text), RSquare] + rest) == [LSquare, Int(text), RSquare] + rest
  {
  }

  /** `[[1]` reads as the list `[1]`: the second `[` is swallowed. */
  lemma {:induction false} DoubledOpenerExample()
    ensures ParseSentence([LSquare, LSquare, Int("1"), RSquare, Eof]) == Some([List([IntNode("1")]), Nothing])
  {
    var ts := [Int("1"), RSquare, Eof];
    assert [LSquare, Int("1"), RSquare] + [Eof] == [LSquare] + ts;
    assert [LSquare, LSquare] + ts == [LSquare, LSquare, Int("1"), RSquare, Eof];
    ListOfOne("1", [Eof]);
    DoubledOpenerIsSwallowed(LSquare, LSquare, ts);
    OneLiteral([LSquare, LSquare, Int("1"), RSquare, Eof], List([IntNode("1")]));
  }

  /** `[[1]]` fails: the list `[1]` ends at the first `]`, and the second one
      cannot start a literal. */
  lemma {:induction false} BalancedDoubledOpenerExample()
    ensures ParseSentence([LSquare, LSquare, Int("1"), RSquare, RSquare, Eof]).None?
  {
    var ts := [Int("1"), RSquare, RSquare, Eof];
    assert [LSquare, Int("1"), RSquare] + [RSquare, Eof] == [LSquare] + ts;
    assert [LSquare, LSquare] + ts == [LSquare, LSquare, Int("1"), RSquare, RSquare, Eof];
    assert ParseSentence([RSquare, Eof]).None?;
    ListOfOne("1", [RSquare, Eof]);
    DoubledOpenerIsSwallowed(LSquare, LSquare, ts);
    SentenceNext([LSquare, LSquare, Int("1"), RSquare, RSquare, Eof], List([IntNode("1")]), [RSquare, Eof]);
  }

  /** `[1,[2]]` is a list holding `1` and the list `[2]`: the second opener
      is swallowed only directly after the first. */
  lemma {:induction false} NestedListExample()
    ensures ParseSentence([LSquare, Int("1"), Comma, LSquare, Int("2"), RSquare, RSquare, Eof])
         == Some([List([IntNode("1"), List([IntNode("2")])]), Nothing])
  {
    NestedList("1", "2");
  }

  /** `[a,[b]]` for any two integer texts. */
  lemma {:induction false} NestedList(a: string, b: string)
    ensures ParseSentence([LSquare, Int(a), Comma, LSquare, Int(b), RSquare, RSquare, Eof])
         == Some([List([IntNode(a), List([IntNode(b)])]), Nothing])
  {
    NestedLiteral(a, b);
    OneLiteral([LSquare, Int(a), Comma, LSquare, Int(b), RSquare, RSquare, Eof],
               List([IntNode(a), List([IntNode(b)])]));
  }

  lemma {:induction false} NestedLiteral(a: string, b: string)
    ensures ParseLiteral([LSquare, Int(a), Comma, LSquare, Int(b), RSquare, RSquare, Eof])
         == Some(Parsed(List([IntNode(a), List([IntNode(b)])]), [Eof]))
  {
    var body := [Int(a), Comma, LSquare, Int(b), RSquare, RSquare, Eof];
    NestedItems(a, b);
    ListStep(body, [IntNode(a), List([IntNode(b)])], [Eof]);
    NestedTokens(a, b);
  }

  lemma {:induction false} NestedTokens(a: string, b: string)
    ensures [LSquare] + [Int(a), Comma, LSquare, Int(b), RSquare, RSquare, Eof]
         == [LSquare, Int(a), Comma, LSquare, Int(b), RSquare, RSquare, Eof]
  {
  }

  lemma {:induction false} NestedItems(a: string, b: string)
    ensures ParseItems([Int(a), Comma, LSquare, Int(b), RSquare, RSquare, Eof], RIGHT_SQUARE_BRACKET)
         == Some(Parsed([IntNode(a), List([IntNode(b)])], [Eof]))
  {
    var inner := [LSquare, Int(b), RSquare, RSquare, Eof];
    assert [Int(a), Comma] + inner == [Int(a), Comma, LSquare, Int(b), RSquare, RSquare, Eof];
    assert [IntNode(a)] + [List([IntNode(b)])] == [IntNode(a), List([IntNode(b)])];
    InnerList(b);
    IntItemComma(a, inner, [List([IntNode(b)])], [Eof]);
  }

  /** The inner list `[b]` as the last item of the outer list. */
  lemma {:induction false} InnerList(b: string)
    ensures ParseItems([LSquare, Int(b), RSquare, RSquare, Eof], RIGHT_SQUARE_BRACKET)
         == Some(Parsed([List([IntNode(b)])], [Eof]))
  {
    var ts := [LSquare, Int(b), RSquare, RSquare, Eof];
    var close := [RSquare, Eof];
    ListOfOne(b, close);
    assert [LSquare, Int(b), RSquare] + close == ts;
    CloseStep(RSquare, [Eof]);
    assert Separator(close, RIGHT_SQUARE_BRACKET) == Some(close);
    ItemsNext(ts, RIGHT_SQUARE_BRACKET, List([IntNode(b)]), close, close);
    assert [List([IntNode(b)])] + [] == [List([IntNode(b)])];
  }

  /** `[1` fails: the EOF token is read as an item and then no closer is
      left. */
  lemma {:induction false} MissingCloserExample()
    ensures ParseSentence([LSquare, Int("1"), Eof]).None?
  {
    var body := [Int("1")] + [Eof];
    var ts := [LSquare] + body;
    assert ts == [LSquare, Int("1"), Eof];
    assert ts[1..] == body;
    assert Separator([Eof], RIGHT_SQUARE_BRACKET) == Some([Eof]);
    EndItemFails();
    IntStep("1", [Eof]);
    ItemsNext(body, RIGHT_SQUARE_BRACKET, IntNode("1"), [Eof], [Eof]);
    ContainerBody(ts);
  }

  /** The EOF token as the last item of a list: nothing is left to close it. */
  lemma {:induction false} EndItemFails()
    ensures ParseItems([Eof], RIGHT_SQUARE_BRACKET).None?
  {
    assert [Eof][1..] == [];
    assert ParseLiteral([Eof]) == Some(Parsed(Nothing, []));
    assert Separator([], RIGHT_SQUARE_BRACKET) == Some([]);
    ItemsNext([Eof], RIGHT_SQUARE_BRACKET, Nothing, [], []);
  }

  // ---------------------------------------------------------------------
  // Degenerate literals at the top level

  /** A lone `:` and the EOF token both yield `None`. */
  lemma {:induction false} LoneColonExample()
    ensures ParseSentence([Colon, Eof]) == Some([Nothing, Nothing])
  {
    assert [Colon, Eof][1..] == [Eof];
    assert ParseLiteral([Colon, Eof]) == Some(Parsed(Nothing, [Eof]));
    OneLiteral([Colon, Eof], Nothing);
  }

  /** `: :` yields the second colon token itself. */
  lemma {:induction false} DoubledColonExample()
    ensures ParseSentence([Colon, Colon, Eof]) == Some([Raw(Colon), Nothing])
  {
    assert [Colon, Colon, Eof][1..] == [Colon, Eof];
    assert [Colon, Eof][1..] == [Eof];
    assert ParseLiteral([Colon, Colon, Eof]) == Some(Parsed(Raw(Colon), [Eof]));
    OneLiteral([Colon, Colon, Eof], Raw(Colon));
  }

  /** A comma at the top level is an error. */
  lemma {:induction false} StrayCommaExample()
    ensures ParseSentence([Comma, Eof]).None?
  {
  }

  // ---------------------------------------------------------------------
  // Maps

  function Key(text: string): Token { Tok(KEY, text) }

  function Atom(text: string): Token { Tok(ATOM, text) }

  /** A map whose opener is not doubled. */
  lemma {:induction false} MapStep(body: seq<Token>)
    requires |body| > 0 && body[0].kind != PERCENTAGE_LEFT_CURLY_BRACE
    ensures ParsePairs(body).None? ==> ParseLiteral([LMap] + body).None?
    ensures ParsePairs(body).Some? ==>
      ParseLiteral([LMap] + body) == Some(Parsed(Node(MapLit(ParsePairs(body).value.value)), ParsePairs(body).value.rest))
  {
    var ts := [LMap] + body;
    ContainerBody(ts);
    assert ts[1..] == body;
  }

  /** `:b => 2 }` and the EOF token: one pair with an arrow. */
  lemma {:induction false} ArrowPair()
    ensures ParsePairs([Atom(":b"), Arrow, Int("2"), RCurly, Eof])
         == Some(Parsed([KeyPair(Node(AtomLit(":b")), IntNode("2"))], [Eof]))
  {
    var ts := [Atom(":b"), Arrow, Int("2"), RCurly, Eof];
    var rest := [Arrow, Int("2"), RCurly, Eof];
    var close := [RCurly, Eof];
    var pair := KeyPair(Node(AtomLit(":b")), IntNode("2"));
    assert ts[1..] == rest;
    assert ParseLiteral(ts) == Some(Parsed(Node(AtomLit(":b")), rest));
    assert SkipConnector(rest) == [Int("2")] + close;
    IntStep("2", close);
    KeyPairParts(ts, Node(AtomLit(":b")), rest);
    assert Separator(close, RIGHT_CURLY_BRACE) == Some(close);
    assert ParsePairs(close) == Some(Parsed([], [Eof])) by {
      assert close[1..] == [Eof];
    }
    PairsNext(ts, pair, close, close);
    assert [pair] + [] == [pair];
  }

  /** `%{a: 1, :b => 2}`: a key followed directly by its value, and an atom
      joined to its value by `=>`. */
  lemma {:induction false} MapExample()
    ensures ParseSentence([LMap, Key("a:"), Int("1"), Comma, Atom(":b"), Arrow, Int("2"), RCurly, Eof])
         == Some([Node(MapLit([KeyPair(Node(KeyLit("a:")), IntNode("1")),
                               KeyPair(Node(AtomLit(":b")), IntNode("2"))])), Nothing])
  {
    var body := [Key("a:"), Int("1"), Comma, Atom(":b"), Arrow, Int("2"), RCurly, Eof];
    var pairs := [KeyPair(Node(KeyLit("a:")), IntNode("1")), KeyPair(Node(AtomLit(":b")), IntNode("2"))];
    assert [LMap] + body == [LMap, Key("a:"), Int("1"), Comma, Atom(":b"), Arrow, Int("2"), RCurly, Eof];
    MapPairs();
    MapStep(body);
    OneLiteral([LMap] + body, Node(MapLit(pairs)));
  }

  lemma {:induction false} MapPairs()
    ensures ParsePairs([Key("a:"), Int("1"), Comma, Atom(":b"), Arrow, Int("2"), RCurly, Eof])
         == Some(Parsed([KeyPair(Node(KeyLit("a:")), IntNode("1")),
                         KeyPair(Node(AtomLit(":b")), IntNode("2"))], [Eof]))
  {
    var next := [Atom(":b"), Arrow, Int("2"), RCurly, Eof];
    var after := [Comma] + next;
    var ts := [Key("a:"), Int("1")] + after;
    var first := KeyPair(Node(KeyLit("a:")), IntNode("1"));
    var second := KeyPair(Node(AtomLit(":b")), IntNode("2"));
    assert ts == [Key("a:"), Int("1"), Comma, Atom(":b"), Arrow, Int("2"), RCurly, Eof];
    assert [first] + [second] == [first, second];
    assert Separator(after, RIGHT_CURLY_BRACE) == Some(next) by {
      assert after[1..] == next;
    }
    KeyThenValue("a:", "1", after);
    ArrowPair();
    PairsNext(ts, first, after, next);
  }

  /** A key token followed directly by an integer value. */
  lemma {:induction false} KeyThenValue(key: string, value: string, after: seq<Token>)
    ensures ParseKeyPair([Key(key), Int(value)] + after)
         == Some(Parsed(KeyPair(Node(KeyLit(key)), IntNode(value)), after))
  {
    var rest := [Int(value)] + after;
    var ts := [Key(key)] + rest;
    assert ts == [Key(key), Int(value)] + after;
    assert ts[1..] == rest;
    assert ParseLiteral(ts) == Some(Parsed(Node(KeyLit(key)), rest));
    assert SkipConnector(rest) == rest;
    IntStep(value, after);
    KeyPairParts(ts, Node(KeyLit(key)), rest);
  }

  /** `%{a: 1,}` fails on the comma before the closer. */
  lemma {:induction false} MapTrailingCommaExample()
    ensures ParseSentence([LMap, Key("a:"), Int("1"), Comma, RCurly, Eof]).None?
  {
    var body := [Key("a:"), Int("1")] + [Comma, RCurly] + [Eof];
    assert [LMap] + body == [LMap, Key("a:"), Int("1"), Comma, RCurly, Eof];
    assert [Key("a:"), Int("1")] + ([Comma, RCurly] + [Eof]) == body;
    KeyThenValue("a:", "1", [Comma, RCurly] + [Eof]);
    TrailingCommaFailsInMap(body, KeyPair(Node(KeyLit("a:")), IntNode("1")), Comma, RCurly, [Eof]);
    MapStep(body);
  }
}
