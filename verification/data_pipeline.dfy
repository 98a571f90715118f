/** The literal-data program end to end (main.py:297-300 without the reading
    of standard input and the printing): text to tokens to syntax tree to the
    tagged JSON value, and the round trip from trees through text back to
    trees. */
module DataPipeline {
  import opened Results
  import opened DataTokens
  import opened DataAst
  import opened DataLexer
  import opened DataParser
  import opened DataJson
  import opened DataJsonReader
  import opened DataPrinter
  import Seqs

  /** Which stage ended the program with exit status 1. */
  datatype Failure =
    | InvalidToken(pos: nat)  // the tokenizer found no pattern at `pos`
    | UnexpectedToken         // the parser failed
    | NoJson                  // `as_json` raised

  /** The EOF token the tokenizer appends to the tokens of `s`. */
  function EndToken(s: string): Token {
    Token(EOF, "<EOF>", |s| + 1)
  }

  /** `tokenize`, then `parse`, then `as_json`. Each outcome is pinned to the
      unique tokenization of `s` (`LexesIsUnique`) or the unique offset
      where tokenizing fails (`FailureIsUnique`). */
  method Convert(s: string) returns (r: Result<Json, Failure>)
    ensures r.Err? && r.error.InvalidToken? ==> exists ts :: FailsAt(s, ts, r.error.pos)
    ensures r.Err? && r.error.UnexpectedToken? ==>
      exists ts :: Lexes(s, ts) && ParseSentence(ts + [EndToken(s)]).None?
    ensures r.Err? && r.error.NoJson? ==>
      exists ts :: Lexes(s, ts) && ParseSentence(ts + [EndToken(s)]).Some?
                   && SentenceJson(ParseSentence(ts + [EndToken(s)]).value).None?
    ensures r.Ok? ==>
      exists ts :: Lexes(s, ts) && ParseSentence(ts + [EndToken(s)]).Some?
                   && SentenceJson(ParseSentence(ts + [EndToken(s)]).value) == Some(r.value)
  {
    var lexed := Tokenize(s);
    if lexed.Err? {
      return Err(InvalidToken(lexed.error.pos));
    }
    var toks := lexed.value;
    ghost var words := toks[..|toks| - 1];
    assert toks == words + [EndToken(s)];
    var parsed := ParseSentence(toks);
    if parsed.None? {
      return Err(UnexpectedToken);
    }
    var json := SentenceJson(parsed.value);
    if json.None? {
      return Err(NoJson);
    }
    return Ok(json.value);
  }

  // ---------------------------------------------------------------------
  // From trees through tokens back to trees

  lemma {:induction false} PresentAppend(a: seq<Lit>, b: seq<Lit>)
    ensures Present(a + b) == Present(a) + Present(b)
    decreases |a|
  {
    if |a| > 0 {
      assert (a + b)[1..] == a[1..] + b;
      PresentAppend(a[1..], b);
    } else {
      assert a + b == b;
    }
  }

  lemma {:induction false} PresentOfNodes(es: seq<Element>)
    ensures Present(Nodes(es)) == Nodes(es)
    decreases |es|
  {
    if |es| > 0 {
      assert Nodes(es)[1..] == Nodes(es[1..]);
      PresentOfNodes(es[1..]);
      Seqs.HeadTail(Nodes(es));
    }
  }

  /** Printing trees, parsing the tokens with the final EOF token, and
      serializing the sentence gives one JSON value per tree, in order, each
      of which reads back as its tree: the EOF token's `None` is dropped and
      nothing else is lost. */
  lemma {:induction false} TreesRoundTrip(es: seq<Element>, st: Style, eof: Token)
    requires forall i :: 0 <= i < |es| ==> Plain(es[i]) && Canonical(es[i])
    requires eof.kind == EOF
    ensures ParseSentence(EmitSentence(es, st) + [eof]).Some?
    ensures var j := SentenceJson(ParseSentence(EmitSentence(es, st) + [eof]).value);
      && j.Some? && j.value.JArray? && |j.value.elems| == |es|
      && forall i :: 0 <= i < |es| ==> Decode(j.value.elems[i]) == Some(es[i])
  {
    SentenceRoundTrip(es, st, eof);
    var ls := Nodes(es) + [Nothing];
    assert Present(ls) == Nodes(es) by {
      PresentAppend(Nodes(es), [Nothing]);
      PresentOfNodes(es);
      assert Present([Nothing]) == [];
      assert Nodes(es) + [] == Nodes(es);
    }
    forall i | 0 <= i < |es|
      ensures LitJson(Nodes(es)[i]).Some? && Decode(LitJson(Nodes(es)[i]).value) == Some(es[i])
    {
      JsonRoundTrip(es[i]);
    }
    ItemsJsonKeepsOrder(ls);
  }
}
