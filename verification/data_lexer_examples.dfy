/** Tokenizations of small inputs of the literal-data language. With
    `LexesIsUnique`, `LexesExcludesFailure` and the contract of `Tokenize`,
    each is what the tokenizer returns for that input (followed by the EOF
    token), or the offset where it fails. */
module DataLexerExamples {
  import opened Results
  import opened DataTokens
  import opened DataPatterns
  import opened DataLexer

  /** Extends a scan by the token found after the skip text. */
  lemma {:induction false} Step(s: string, ts: seq<Token>, a: nat, t: Token)
    requires Scans(s, ts) && End(ts) <= |s|
    requires a == SkipEnd(s, End(ts))
    requires a < t.loc <= |s| && t.lexeme == s[a..t.loc]
    requires FirstLongestAt(s, a, t.kind, t.loc)
    ensures Scans(s, ts + [t]) && End(ts + [t]) == t.loc
  {
    SkipEndIsLongestSkip(s, End(ts), a);
    assert |t.lexeme| == t.loc - a;
    ScansExtend(s, ts, t);
  }

  /** Only skip text is left after `ts`. */
  lemma {:induction false} SkipToEnd(s: string, ts: seq<Token>)
    requires Scans(s, ts) && End(ts) <= |s|
    requires SkipEnd(s, End(ts)) == |s|
    ensures Lexes(s, ts)
  {
    SkipEndIsLongestSkip(s, End(ts), |s|);
  }

  /** `:foo` is one atom, although the colon pattern also matches there. */
  lemma {:induction false} AtomExample()
    ensures Lexes(":foo", [Token(ATOM, ":foo", 4)])
  {
    var s := ":foo";
    AtomPicked();
    assert s[0..4] == ":foo";
    Step(s, [], 0, Token(ATOM, ":foo", 4));
    SkipToEnd(s, [Token(ATOM, ":foo", 4)]);
  }

  lemma {:induction false} AtomPicked()
    ensures FirstLongestAt(":foo", 0, ATOM, 4)
  {
    AtomFound();
    FirstMatchIsFirstLongest(":foo", 0);
  }

  lemma {:induction false} AtomFound()
    ensures FirstMatch(":foo", 0) == Some(Hit(ATOM, 4))
  {
    assert FirstMatchFrom(":foo", 0, 1) == Some(Hit(ATOM, 4));
  }

  /** `true:` is a key: the key pattern comes before the boolean pattern. */
  lemma {:induction false} KeyBeforeBooleanExample()
    ensures Lexes("true:", [Token(KEY, "true:", 5)])
  {
    var s := "true:";
    KeyPicked();
    assert s[0..5] == "true:";
    Step(s, [], 0, Token(KEY, "true:", 5));
    SkipToEnd(s, [Token(KEY, "true:", 5)]);
  }

  lemma {:induction false} KeyPicked()
    ensures FirstLongestAt("true:", 0, KEY, 5)
  {
    var s := "true:";
    KeyFound();
    FirstMatchIsFirstLongest(s, 0);
  }

  lemma {:induction false} KeyFound()
    ensures FirstMatch("true:", 0) == Some(Hit(KEY, 5))
  {
    var s := "true:";
    TrueKeyMatches();
    TrueEarlierMiss();
    assert FirstMatchFrom(s, 0, 4) == Some(Hit(KEY, 5));
    assert FirstMatchFrom(s, 0, 3) == Some(Hit(KEY, 5));
    assert FirstMatchFrom(s, 0, 2) == Some(Hit(KEY, 5));
    assert FirstMatchFrom(s, 0, 1) == Some(Hit(KEY, 5));
  }

  lemma {:induction false} TrueKeyMatches()
    ensures MatchLen(KEY, "true:", 0) == 5
  {
  }

  /** No pattern before the key pattern matches at the start of `true:`. */
  lemma {:induction false} TrueEarlierMiss()
    ensures MatchLen(INTEGER, "true:", 0) == 0 && MatchLen(ATOM, "true:", 0) == 0
    ensures MatchLen(COMMA, "true:", 0) == 0 && MatchLen(COLON, "true:", 0) == 0
  {
  }

  /** `1_000` is one integer: groups of digits joined by underscores. */
  lemma {:induction false} GroupedIntegerExample()
    ensures Lexes("1_000", [Token(INTEGER, "1_000", 5)])
  {
    var s := "1_000";
    IntegerPicked();
    assert s[0..5] == "1_000";
    Step(s, [], 0, Token(INTEGER, "1_000", 5));
    SkipToEnd(s, [Token(INTEGER, "1_000", 5)]);
  }

  lemma {:induction false} IntegerPicked()
    ensures FirstLongestAt("1_000", 0, INTEGER, 5)
  {
    assert FirstMatch("1_000", 0) == Some(Hit(INTEGER, 5));
    FirstMatchIsFirstLongest("1_000", 0);
  }

  /** A comment runs to the end of its line and is skipped with the blanks. */
  lemma {:induction false} CommentExample()
    ensures Lexes(" # note\n7", [Token(INTEGER, "7", 9)])
  {
    var s := " # note\n7";
    CommentSkipped();
    DigitAfterCommentPicked();
    assert s[8..9] == "7";
    Step(s, [], 8, Token(INTEGER, "7", 9));
    SkipToEnd(s, [Token(INTEGER, "7", 9)]);
  }

  lemma {:induction false} DigitAfterCommentPicked()
    ensures FirstLongestAt(" # note\n7", 8, INTEGER, 9)
  {
    assert FirstMatch(" # note\n7", 8) == Some(Hit(INTEGER, 1));
    FirstMatchIsFirstLongest(" # note\n7", 8);
  }

  lemma {:induction false} CommentSkipped()
    ensures SkipEnd(" # note\n7", 0) == 8
  {
    assert LineEnd(" # note\n7", 2) == 7;
  }

  /** A bare word is no token: `age` lacks the colon of a key, so the
      tokenizer fails at its first character. */
  lemma {:induction false} BareWordFails()
    ensures FailsAt("age", [], 0)
  {
    var s := "age";
    forall k, j: nat
      ensures !MatchesAt(k, s, 0, j)
    {
      BareWordMatchesNothing(k);
      MatchLenIsLongest(k, s, 0, j);
    }
    SkipEndIsLongestSkip(s, 0, 0);
  }

  lemma {:induction false} BareWordMatchesNothing(k: TokenKind)
    ensures MatchLen(k, "age", 0) == 0
  {
    assert "age"[0..1] == "a" && "age"[0..2] == "ag";
    match k
    case INTEGER =>
    case ATOM =>
    case COMMA =>
    case COLON =>
    case KEY => assert IdentRunEnd("age", 1) == 3;
    case VALUE =>
    case BOOLEAN =>
    case LEFT_SQUARE_BRACKET =>
    case RIGHT_SQUARE_BRACKET =>
    case LEFT_CURLY_BRACE =>
    case RIGHT_CURLY_BRACE =>
    case PERCENTAGE_LEFT_CURLY_BRACE =>
    case RIGHT_ARROW =>
    case UNDERSCORE =>
    case EMPTY_SPACE =>
    case EOF =>
  }
}
