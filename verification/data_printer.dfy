/** Writing a syntax tree back as tokens, and the round trip through the parser.

    The printer is the parser's partner: for every tree without the shapes the
    parser cannot tell apart (a degenerate literal, or a container whose first
    item opens with the container's own opener), parsing the printed tokens
    gives the tree back, whichever separators the printer chose. That the
    choice of separators does not matter is the statement that commas and
    key-pair connectors are optional (main.py:91-94, main.py:126-141). */
module DataPrinter {
  import opened Results
  import opened DataTokens
  import opened DataAst
  import opened DataParser
  import Seqs

  /** What a printer writes between a key and its value. */
  datatype Connector = Arrow | Colon | Adjacent

  /** Whether items are separated by commas, and the key-pair connector. */
  datatype Style = Style(commas: bool, connector: Connector)

  /** A token with fixed text; the parser ignores offsets. */
  function Fixed(k: TokenKind): Token {
    Token(k, FixedText(k), 0)
  }

  function Emit(e: Element, st: Style): seq<Token>
    decreases e, 1
  {
    match e
    case ListLit(items) => [Fixed(LEFT_SQUARE_BRACKET)] + EmitItems(items, st) + [Fixed(RIGHT_SQUARE_BRACKET)]
    case TupleLit(items) => [Fixed(LEFT_CURLY_BRACE)] + EmitItems(items, st) + [Fixed(RIGHT_CURLY_BRACE)]
    case MapLit(pairs) => [Fixed(PERCENTAGE_LEFT_CURLY_BRACE)] + EmitPairs(pairs, st) + [Fixed(RIGHT_CURLY_BRACE)]
    case _ => [Token(PrimitiveKind(e), e.text, 0)]
  }

  function EmitLit(l: Lit, st: Style): seq<Token>
    decreases l, 0
  {
    if l.Node? then Emit(l.element, st) else []
  }

  function Comma(st: Style): seq<Token> {
    if st.commas then [Fixed(COMMA)] else []
  }

  function EmitItems(items: seq<Lit>, st: Style): seq<Token>
    decreases items, 0
  {
    if |items| == 0 then []
    else if |items| == 1 then EmitLit(items[0], st)
    else EmitLit(items[0], st) + Comma(st) + EmitItems(items[1..], st)
  }

  function Connect(st: Style): seq<Token> {
    match st.connector
    case Arrow => [Fixed(RIGHT_ARROW)]
    case Colon => [Fixed(COLON)]
    case Adjacent => []
  }

  function EmitPair(p: KeyPair, st: Style): seq<Token>
    decreases p, 0
  {
    EmitLit(p.key, st) + Connect(st) + EmitLit(p.value, st)
  }

  function EmitPairs(pairs: seq<KeyPair>, st: Style): seq<Token>
    decreases pairs, 0
  {
    if |pairs| == 0 then []
    else if |pairs| == 1 then EmitPair(pairs[0], st)
    else EmitPair(pairs[0], st) + Comma(st) + EmitPairs(pairs[1..], st)
  }

  /** Top-level literals are written side by side: a comma there is an error. */
  function EmitSentence(es: seq<Element>, st: Style): seq<Token> {
    if |es| == 0 then [] else Emit(es[0], st) + EmitSentence(es[1..], st)
  }

  // ---------------------------------------------------------------------
  // The trees that survive the round trip

  /** A container item that is an element of the given opener's own kind. */
  predicate OpensWith(l: Lit, opener: TokenKind) {
    l.Node? && IsContainer(l.element) && Opener(l.element) == opener
  }

  predicate Plain(e: Element)
    decreases e, 1
  {
    match e
    case ListLit(items) => PlainItems(items) && !(|items| > 0 && OpensWith(items[0], LEFT_SQUARE_BRACKET))
    case TupleLit(items) => PlainItems(items) && !(|items| > 0 && OpensWith(items[0], LEFT_CURLY_BRACE))
    case MapLit(pairs) => PlainPairs(pairs) && !(|pairs| > 0 && OpensWith(pairs[0].key, PERCENTAGE_LEFT_CURLY_BRACE))
    case _ => true
  }

  predicate PlainLit(l: Lit)
    decreases l, 0
  {
    l.Node? && Plain(l.element)
  }

  predicate PlainItems(items: seq<Lit>)
    decreases items, 0
  {
    forall i :: 0 <= i < |items| ==> PlainLit(items[i])
  }

  predicate PlainPair(p: KeyPair)
    decreases p, 0
  {
    PlainLit(p.key) && PlainLit(p.value)
  }

  predicate PlainPairs(pairs: seq<KeyPair>)
    decreases pairs, 0
  {
    forall i :: 0 <= i < |pairs| ==> PlainPair(pairs[i])
  }

  // ---------------------------------------------------------------------
  // Round trip

  /** A printed element starts with a token that opens a literal: never a
      comma, a closer, a connector or `<EOF>`. */
  lemma {:induction false} EmitStart(e: Element, st: Style)
    ensures |Emit(e, st)| > 0
    ensures var k := Emit(e, st)[0].kind;
      StartsLiteral(k) && k != COLON && k != RIGHT_ARROW && k != EOF
    ensures IsOpener(Emit(e, st)[0].kind) <==> IsContainer(e)
    ensures IsContainer(e) ==> Emit(e, st)[0].kind == Opener(e)
    ensures Emit(e, st)[0].kind != COMMA
  {
  }

  /** Printing then parsing one element gives it back, whatever follows it. */
  lemma {:induction false} LiteralRoundTrip(e: Element, st: Style, tail: seq<Token>)
    requires Plain(e)
    ensures ParseLiteral(Emit(e, st) + tail) == Some(Parsed(Node(e), tail))
    decreases e, 1
  {
    var ts := Emit(e, st) + tail;
    match e
    case ListLit(items) =>
      ContainerRoundTrip(e, items, st, LEFT_SQUARE_BRACKET, RIGHT_SQUARE_BRACKET, tail);
    case TupleLit(items) =>
      ContainerRoundTrip(e, items, st, LEFT_CURLY_BRACE, RIGHT_CURLY_BRACE, tail);
    case MapLit(pairs) =>
      MapRoundTrip(e, pairs, st, tail);
    case _ =>
      assert ts == [Token(PrimitiveKind(e), e.text, 0)] + tail;
      assert ts[1..] == tail;
  }

  lemma {:induction false} MapRoundTrip(e: Element, pairs: seq<KeyPair>, st: Style, tail: seq<Token>)
    requires e == MapLit(pairs) && Plain(e)
    ensures ParseLiteral(Emit(e, st) + tail) == Some(Parsed(Node(e), tail))
    decreases e, 0
  {
    var ts := Emit(e, st) + tail;
    var body := EmitPairs(pairs, st) + [Fixed(RIGHT_CURLY_BRACE)] + tail;
    Seqs.Regroup3([Fixed(PERCENTAGE_LEFT_CURLY_BRACE)], EmitPairs(pairs, st), [Fixed(RIGHT_CURLY_BRACE)], tail);
    PairsStart(pairs, st, tail);
    assert ts[1..] == body;
    ContainerBody(ts);
    PairsRoundTrip(pairs, st, tail);
  }

  lemma {:induction false} LitRoundTrip(l: Lit, st: Style, tail: seq<Token>)
    requires PlainLit(l)
    ensures ParseLiteral(EmitLit(l, st) + tail) == Some(Parsed(l, tail))
    decreases l, 0
  {
    LiteralRoundTrip(l.element, st, tail);
  }

  lemma {:induction false} ContainerRoundTrip(e: Element, items: seq<Lit>, st: Style, opener: TokenKind, closer: TokenKind, tail: seq<Token>)
    requires e == ListLit(items) || e == TupleLit(items)
    requires Plain(e) && opener == Opener(e) && closer == Closer(e)
    ensures ParseLiteral(Emit(e, st) + tail) == Some(Parsed(Node(e), tail))
    decreases e, 0
  {
    var ts := Emit(e, st) + tail;
    var body := EmitItems(items, st) + [Fixed(closer)] + tail;
    Seqs.Regroup3([Fixed(opener)], EmitItems(items, st), [Fixed(closer)], tail);
    ItemsStart(items, st, closer, tail);
    assert ts[1..] == body;
    ContainerBody(ts);
    ItemsRoundTrip(items, st, closer, tail);
  }

  /** The first token of a printed item list: the first item's, or the closer. */
  lemma {:induction false} ItemsStart(items: seq<Lit>, st: Style, closer: TokenKind, tail: seq<Token>)
    requires PlainItems(items)
    ensures var ts := EmitItems(items, st) + [Fixed(closer)] + tail;
      && |ts| > 0
      && (|items| == 0 ==> ts[0].kind == closer)
      && (|items| > 0 ==> |EmitLit(items[0], st)| > 0 && ts[0] == EmitLit(items[0], st)[0])
  {
    if |items| > 0 {
      assert PlainLit(items[0]);
      EmitStart(items[0].element, st);
    }
  }

  lemma {:induction false} PairsStart(pairs: seq<KeyPair>, st: Style, tail: seq<Token>)
    requires PlainPairs(pairs)
    ensures var ts := EmitPairs(pairs, st) + [Fixed(RIGHT_CURLY_BRACE)] + tail;
      && |ts| > 0
      && (|pairs| == 0 ==> ts[0].kind == RIGHT_CURLY_BRACE)
      && (|pairs| > 0 ==> |EmitLit(pairs[0].key, st)| > 0 && ts[0] == EmitLit(pairs[0].key, st)[0])
  {
    if |pairs| > 0 {
      assert PlainPair(pairs[0]);
      assert PlainLit(pairs[0].key);
      EmitStart(pairs[0].key.element, st);
      var k := EmitLit(pairs[0].key, st);
      assert EmitPair(pairs[0], st)[0] == k[0];
      assert EmitPairs(pairs, st)[0] == k[0];
    }
  }

  /** A separator between two printed items is passed over. */
  lemma {:induction false} SeparatorBeforeItem(st: Style, next: seq<Token>, closer: TokenKind)
    requires |next| > 0 && next[0].kind != COMMA && next[0].kind != closer
    ensures Separator(Comma(st) + next, closer) == Some(next)
  {
  }

  lemma PlainItemsTail(items: seq<Lit>)
    requires |items| > 0 && PlainItems(items)
    ensures PlainItems(items[1..])
  {
    assert forall i :: 0 <= i < |items| - 1 ==> items[1..][i] == items[i + 1];
  }

  lemma PlainPairsTail(pairs: seq<KeyPair>)
    requires |pairs| > 0 && PlainPairs(pairs)
    ensures PlainPairs(pairs[1..])
  {
    assert forall i :: 0 <= i < |pairs| - 1 ==> pairs[1..][i] == pairs[i + 1];
  }

  /** A printed list or tuple body, then its closer, parses to its items. */
  lemma {:induction false} ItemsRoundTrip(items: seq<Lit>, st: Style, closer: TokenKind, tail: seq<Token>)
    requires PlainItems(items)
    requires closer == RIGHT_SQUARE_BRACKET || closer == RIGHT_CURLY_BRACE
    ensures ParseItems(EmitItems(items, st) + [Fixed(closer)] + tail, closer) == Some(Parsed(items, tail))
    decreases items, 1
  {
    if |items| == 0 {
      assert EmitItems(items, st) + [Fixed(closer)] + tail == [Fixed(closer)] + tail;
    } else if |items| == 1 {
      LastItemRoundTrip(items, st, closer, tail);
    } else {
      NextItemRoundTrip(items, st, closer, tail);
    }
  }

  lemma {:induction false} LastItemRoundTrip(items: seq<Lit>, st: Style, closer: TokenKind, tail: seq<Token>)
    requires |items| == 1 && PlainItems(items)
    requires closer == RIGHT_SQUARE_BRACKET || closer == RIGHT_CURLY_BRACE
    ensures ParseItems(EmitItems(items, st) + [Fixed(closer)] + tail, closer) == Some(Parsed(items, tail))
    decreases items, 0
  {
    var ts := EmitItems(items, st) + [Fixed(closer)] + tail;
    var after := [Fixed(closer)] + tail;
    assert ParseLiteral(ts) == Some(Parsed(items[0], after)) && ts[0].kind != closer by {
      assert PlainLit(items[0]);
      ItemsStart(items, st, closer, tail);
      EmitStart(items[0].element, st);
      assert EmitItems(items, st) == EmitLit(items[0], st);
      Seqs.Regroup2(EmitLit(items[0], st), [Fixed(closer)], tail);
      LitRoundTrip(items[0], st, after);
    }
    assert Separator(after, closer) == Some(after) && ParseItems(after, closer) == Some(Parsed([], tail)) by {
      assert after[1..] == tail;
    }
    ItemsNext(ts, closer, items[0], after, after);
    assert [items[0]] + [] == items;
  }

  lemma {:induction false} NextItemRoundTrip(items: seq<Lit>, st: Style, closer: TokenKind, tail: seq<Token>)
    requires |items| > 1 && PlainItems(items)
    requires closer == RIGHT_SQUARE_BRACKET || closer == RIGHT_CURLY_BRACE
    ensures ParseItems(EmitItems(items, st) + [Fixed(closer)] + tail, closer) == Some(Parsed(items, tail))
    decreases items, 0
  {
    var ts := EmitItems(items, st) + [Fixed(closer)] + tail;
    var rest := items[1..];
    var more := EmitItems(rest, st) + [Fixed(closer)] + tail;
    var after := Comma(st) + more;
    assert ParseLiteral(ts) == Some(Parsed(items[0], after)) && ts[0].kind != closer by {
      assert PlainLit(items[0]);
      ItemsStart(items, st, closer, tail);
      EmitStart(items[0].element, st);
      assert EmitItems(items, st) == EmitLit(items[0], st) + Comma(st) + EmitItems(rest, st);
      Seqs.Regroup4(EmitLit(items[0], st), Comma(st), EmitItems(rest, st), [Fixed(closer)], tail);
      LitRoundTrip(items[0], st, after);
    }
    assert Separator(after, closer) == Some(more) && ParseItems(more, closer) == Some(Parsed(rest, tail)) by {
      PlainItemsTail(items);
      ItemsStart(rest, st, closer, tail);
      EmitStart(rest[0].element, st);
      SeparatorBeforeItem(st, more, closer);
      ItemsRoundTrip(rest, st, closer, tail);
    }
    ItemsNext(ts, closer, items[0], after, more);
    Seqs.HeadTail(items);
  }

  /** A printed key pair parses back, whatever follows it. */
  lemma {:induction false} KeyPairRoundTrip(p: KeyPair, st: Style, tail: seq<Token>)
    requires PlainPair(p)
    ensures ParseKeyPair(EmitPair(p, st) + tail) == Some(Parsed(p, tail))
    decreases p, 0
  {
    var ts := EmitPair(p, st) + tail;
    var c := Connect(st);
    var v := EmitLit(p.value, st) + tail;
    assert ParseLiteral(ts) == Some(Parsed(p.key, c + v)) by {
      Seqs.Regroup3(EmitLit(p.key, st), c, EmitLit(p.value, st), tail);
      LitRoundTrip(p.key, st, c + v);
    }
    assert |c + v| > 0 && SkipConnector(c + v) == v by {
      assert PlainLit(p.value);
      EmitStart(p.value.element, st);
      if st.connector.Adjacent? {
        assert c + v == v;
      } else {
        assert (c + v)[1..] == v;
      }
    }
    LitRoundTrip(p.value, st, tail);
    KeyPairParts(ts, p.key, c + v);
  }

  /** A printed map body, then `}`, parses to its key pairs. */
  lemma {:induction false} PairsRoundTrip(pairs: seq<KeyPair>, st: Style, tail: seq<Token>)
    requires PlainPairs(pairs)
    ensures ParsePairs(EmitPairs(pairs, st) + [Fixed(RIGHT_CURLY_BRACE)] + tail) == Some(Parsed(pairs, tail))
    decreases pairs, 1
  {
    if |pairs| == 0 {
      assert EmitPairs(pairs, st) + [Fixed(RIGHT_CURLY_BRACE)] + tail == [Fixed(RIGHT_CURLY_BRACE)] + tail;
    } else if |pairs| == 1 {
      LastPairRoundTrip(pairs, st, tail);
    } else {
      NextPairRoundTrip(pairs, st, tail);
    }
  }

  lemma {:induction false} LastPairRoundTrip(pairs: seq<KeyPair>, st: Style, tail: seq<Token>)
    requires |pairs| == 1 && PlainPairs(pairs)
    ensures ParsePairs(EmitPairs(pairs, st) + [Fixed(RIGHT_CURLY_BRACE)] + tail) == Some(Parsed(pairs, tail))
    decreases pairs, 0
  {
    var closer := RIGHT_CURLY_BRACE;
    var ts := EmitPairs(pairs, st) + [Fixed(closer)] + tail;
    var after := [Fixed(closer)] + tail;
    assert ParseKeyPair(ts) == Some(Parsed(pairs[0], after)) && ts[0].kind != closer by {
      assert PlainPair(pairs[0]);
      PairsStart(pairs, st, tail);
      assert EmitPairs(pairs, st) == EmitPair(pairs[0], st);
      Seqs.Regroup2(EmitPair(pairs[0], st), [Fixed(closer)], tail);
      KeyPairRoundTrip(pairs[0], st, after);
    }
    assert Separator(after, closer) == Some(after) && ParsePairs(after) == Some(Parsed([], tail)) by {
      assert after[1..] == tail;
    }
    PairsNext(ts, pairs[0], after, after);
    assert [pairs[0]] + [] == pairs;
  }

  lemma {:induction false} NextPairRoundTrip(pairs: seq<KeyPair>, st: Style, tail: seq<Token>)
    requires |pairs| > 1 && PlainPairs(pairs)
    ensures ParsePairs(EmitPairs(pairs, st) + [Fixed(RIGHT_CURLY_BRACE)] + tail) == Some(Parsed(pairs, tail))
    decreases pairs, 0
  {
    var closer := RIGHT_CURLY_BRACE;
    var ts := EmitPairs(pairs, st) + [Fixed(closer)] + tail;
    var rest := pairs[1..];
    var more := EmitPairs(rest, st) + [Fixed(closer)] + tail;
    var after := Comma(st) + more;
    assert ParseKeyPair(ts) == Some(Parsed(pairs[0], after)) && ts[0].kind != closer by {
      assert PlainPair(pairs[0]);
      PairsStart(pairs, st, tail);
      assert EmitPairs(pairs, st) == EmitPair(pairs[0], st) + Comma(st) + EmitPairs(rest, st);
      Seqs.Regroup4(EmitPair(pairs[0], st), Comma(st), EmitPairs(rest, st), [Fixed(closer)], tail);
      KeyPairRoundTrip(pairs[0], st, after);
    }
    assert Separator(after, closer) == Some(more) && ParsePairs(more) == Some(Parsed(rest, tail)) by {
      PlainPairsTail(pairs);
      PairsStart(rest, st, tail);
      assert PlainPair(rest[0]) && PlainLit(rest[0].key);
      EmitStart(rest[0].key.element, st);
      SeparatorBeforeItem(st, more, closer);
      PairsRoundTrip(rest, st, tail);
    }
    PairsNext(ts, pairs[0], after, more);
    Seqs.HeadTail(pairs);
  }

  /** The literals a sentence of elements parses to. */
  function Nodes(es: seq<Element>): (ls: seq<Lit>)
    ensures |ls| == |es| && forall i :: 0 <= i < |es| ==> ls[i] == Node(es[i])
  {
    seq(|es|, i requires 0 <= i < |es| => Node(es[i]))
  }

  /** Printed elements followed by the tokenizer's final `<EOF>` parse back to
      the same elements, followed by the `None` that the final `<EOF>` is read
      as (main.py:66-68, main.py:80-84). */
  lemma {:induction false} SentenceRoundTrip(es: seq<Element>, st: Style, eof: Token)
    requires forall i :: 0 <= i < |es| ==> Plain(es[i])
    requires eof.kind == EOF
    ensures ParseSentence(EmitSentence(es, st) + [eof]) == Some(Nodes(es) + [Nothing])
    decreases |es|
  {
    var ts := EmitSentence(es, st) + [eof];
    if |es| == 0 {
      assert ts == [eof];
      EndOfSentence(eof);
      assert Nodes(es) == [];
      assert Nodes(es) + [Nothing] == [Nothing];
    } else {
      var rest := EmitSentence(es[1..], st) + [eof];
      assert ParseLiteral(ts) == Some(Parsed(Node(es[0]), rest)) by {
        Seqs.Regroup2(Emit(es[0], st), EmitSentence(es[1..], st), [eof]);
        LiteralRoundTrip(es[0], st, rest);
      }
      assert forall i :: 0 <= i < |es| - 1 ==> es[1..][i] == es[i + 1];
      SentenceRoundTrip(es[1..], st, eof);
      SentenceNext(ts, Node(es[0]), rest);
      NodesCons(es);
    }
  }

  lemma NodesCons(es: seq<Element>)
    requires |es| > 0
    ensures [Node(es[0])] + (Nodes(es[1..]) + [Nothing]) == Nodes(es) + [Nothing]
  {
    var l := [Node(es[0])] + (Nodes(es[1..]) + [Nothing]);
    var r := Nodes(es) + [Nothing];
    assert |l| == |r|;
    forall i | 0 <= i < |l| ensures l[i] == r[i] {
      if 0 < i < |es| {
        assert l[i] == Nodes(es[1..])[i - 1] == Node(es[i]);
      }
    }
  }

  /** The final `<EOF>` alone is one degenerate literal. */
  lemma {:induction false} EndOfSentence(eof: Token)
    requires eof.kind == EOF
    ensures ParseSentence([eof]) == Some([Nothing])
  {
    assert ParseLiteral([eof]) == Some(Parsed(Nothing, []));
    SentenceNext([eof], Nothing, []);
    assert ParseSentence([]) == Some([]);
    assert [Nothing] + [] == [Nothing];
  }
}
