/** The patterns of the token-definition table of the literal-data language
    (main.py:4-21), one hand-written matcher per pattern. A matcher returns
    the length of the text Python's `re` would match at offset `i` of `s`
    (0 when the pattern does not match there); its contract relates that
    length to the set of lexemes the pattern describes. The matchers carry
    only bounds; what they match is stated by the lemmas after each one. */
module DataPatterns {
  import opened Decimal
  import opened DataTokens
  import opened Seqs

  // ---------------------------------------------------------------------
  // Runs of one character class

  function DigitRunEnd(s: string, i: nat): (j: nat)
    requires i <= |s|
    ensures i <= j <= |s|
    ensures forall k :: i <= k < j ==> IsDigit(s[k])
    ensures j == |s| || !IsDigit(s[j])
    decreases |s| - i
  {
    if i < |s| && IsDigit(s[i]) then DigitRunEnd(s, i + 1) else i
  }

  function IdentRunEnd(s: string, i: nat): (j: nat)
    requires i <= |s|
    ensures i <= j <= |s|
    ensures forall k :: i <= k < j ==> IsIdentChar(s[k])
    ensures j == |s| || !IsIdentChar(s[j])
    decreases |s| - i
  {
    if i < |s| && IsIdentChar(s[i]) then IdentRunEnd(s, i + 1) else i
  }

  function BlankRunEnd(s: string, i: nat): (j: nat)
    requires i <= |s|
    ensures i <= j <= |s|
    ensures forall k :: i <= k < j ==> IsBlank(s[k])
    ensures j == |s| || !IsBlank(s[j])
    decreases |s| - i
  {
    if i < |s| && IsBlank(s[i]) then BlankRunEnd(s, i + 1) else i
  }

  // ---------------------------------------------------------------------
  // INTEGER: `\d+(_\d+)*`

  /** `s[i..j]` is an integer lexeme, stated on `s` itself. */
  predicate IntegerSpan(s: string, i: nat, j: nat)
    requires i <= j <= |s|
  {
    && i < j
    && IsDigit(s[i])
    && IsDigit(s[j - 1])
    && (forall x :: i <= x < j ==> IsDigit(s[x]) || s[x] == '_')
    && (forall x, y :: i <= x < j && i <= y < j && y == x + 1 ==> IsDigit(s[x]) || IsDigit(s[y]))
  }

  lemma IntegerSpanIsLexeme(s: string, i: nat, j: nat)
    requires i <= j <= |s|
    ensures IntegerSpan(s, i, j) <==> IsIntegerLexeme(s[i..j])
  {
    var t := s[i..j];
    assert forall x :: 0 <= x < |t| ==> t[x] == s[i + x];
    if IsIntegerLexeme(t) {
      forall x, y | i <= x < j && i <= y < j && y == x + 1
        ensures IsDigit(s[x]) || IsDigit(s[y])
      {
        assert t[x - i] == s[x] && t[y - i] == s[y];
      }
    }
  }

  lemma SpanExtends(s: string, i: nat, j: nat, e: nat)
    requires i <= j < j + 1 < e <= |s|
    requires IntegerSpan(s, i, j)
    requires s[j] == '_'
    requires forall k :: j + 1 <= k < e ==> IsDigit(s[k])
    ensures IntegerSpan(s, i, e)
  {
    assert IsDigit(s[j - 1]);
  }

  /** Extends the integer lexeme s[i..j] by `_\d+` groups as long as possible. */
  function GroupsEnd(s: string, i: nat, j: nat): (k: nat)
    requires i <= j <= |s|
    requires IntegerSpan(s, i, j)
    requires j == |s| || !IsDigit(s[j])
    ensures j <= k <= |s|
    ensures IntegerSpan(s, i, k)
    ensures k == |s| || (!IsDigit(s[k]) && !(s[k] == '_' && k + 1 < |s| && IsDigit(s[k + 1])))
    decreases |s| - j
  {
    if j + 1 < |s| && s[j] == '_' && IsDigit(s[j + 1]) then
      var e := DigitRunEnd(s, j + 1);
      SpanExtends(s, i, j, e);
      GroupsEnd(s, i, e)
    else j
  }

  function MatchInteger(s: string, i: nat): (n: nat)
    requires i <= |s|
    ensures i + n <= |s|
  {
    if i < |s| && IsDigit(s[i]) then
      var d := DigitRunEnd(s, i);
      GroupsEnd(s, i, d) - i
    else 0
  }

  /** INTEGER matches exactly when a digit comes next; what it matches is an
      integer lexeme that cannot be extended by a digit or an `_\d` group. */
  lemma MatchIntegerIsMatch(s: string, i: nat)
    requires i <= |s|
    ensures MatchLen(INTEGER, s, i) == MatchInteger(s, i)
    ensures var n := MatchInteger(s, i);
      && (n > 0 <==> i < |s| && IsDigit(s[i]))
      && (n > 0 ==> MatchesAt(INTEGER, s, i, i + n))
      && (n > 0 ==> IntegerSpan(s, i, i + n))
      && (n > 0 ==> i + n == |s| || (!IsDigit(s[i + n]) && !(s[i + n] == '_' && i + n + 1 < |s| && IsDigit(s[i + n + 1]))))
  {
    if i < |s| && IsDigit(s[i]) {
      var d := DigitRunEnd(s, i);
      assert IntegerSpan(s, i, d);
      IntegerSpanIsLexeme(s, i, GroupsEnd(s, i, d));
    }
  }

  /** INTEGER matches greedily: no longer prefix is an integer lexeme. */
  lemma MatchIntegerIsLongest(s: string, i: nat, j: nat)
    requires i < j <= |s|
    requires IsIntegerLexeme(s[i..j])
    ensures j <= i + MatchInteger(s, i)
  {
    IntegerSpanIsLexeme(s, i, j);
    MatchIntegerIsMatch(s, i);
  }

  // ---------------------------------------------------------------------
  // ATOM: `:[a-zA-Z_][a-zA-Z0-9_]*`

  function MatchAtom(s: string, i: nat): (n: nat)
    requires i <= |s|
    ensures i + n <= |s|
  {
    if i + 1 < |s| && s[i] == ':' && IsIdentStart(s[i + 1]) then IdentRunEnd(s, i + 1) - i else 0
  }

  /** ATOM matches exactly when `:` and an identifier start come next, and
      then takes the whole identifier. */
  lemma MatchAtomIsMatch(s: string, i: nat)
    requires i <= |s|
    ensures MatchLen(ATOM, s, i) == MatchAtom(s, i)
    ensures var n := MatchAtom(s, i);
      && (n > 0 <==> i + 1 < |s| && s[i] == ':' && IsIdentStart(s[i + 1]))
      && (n > 0 ==> MatchesAt(ATOM, s, i, i + n) && (i + n == |s| || !IsIdentChar(s[i + n])))
  {
    if i + 1 < |s| && s[i] == ':' && IsIdentStart(s[i + 1]) {
      var e := IdentRunEnd(s, i + 1);
      assert s[i..e][1..] == s[i + 1..e];
    }
  }

  lemma MatchAtomIsLongest(s: string, i: nat, j: nat)
    requires i < j <= |s|
    requires IsAtomLexeme(s[i..j])
    ensures j <= i + MatchAtom(s, i)
  {
    var t := s[i..j];
    assert t[0] == s[i] && t[1..][0] == s[i + 1];
    MatchAtomIsMatch(s, i);
  }

  // ---------------------------------------------------------------------
  // KEY: `[a-zA-Z_][a-zA-Z0-9_]*:`

  function MatchKey(s: string, i: nat): (n: nat)
    requires i <= |s|
    ensures i + n <= |s|
  {
    var e := IdentRunEnd(s, i);
    if i < e < |s| && IsIdentStart(s[i]) && s[e] == ':' then e + 1 - i else 0
  }

  lemma MatchKeyIsMatch(s: string, i: nat)
    requires i <= |s|
    ensures MatchLen(KEY, s, i) == MatchKey(s, i)
    ensures var n := MatchKey(s, i); n > 0 ==> MatchesAt(KEY, s, i, i + n)
  {
    var e := IdentRunEnd(s, i);
    if i < e < |s| && IsIdentStart(s[i]) && s[e] == ':' {
      assert s[i..e + 1][..e - i] == s[i..e];
    }
  }

  /** A key lexeme is the only prefix KEY can match. */
  lemma MatchKeyIsUnique(s: string, i: nat, j: nat)
    requires i < j <= |s|
    requires IsKeyLexeme(s[i..j])
    ensures j == i + MatchKey(s, i)
  {
    var t := s[i..j];
    var e := IdentRunEnd(s, i);
    assert t[..j - i - 1] == s[i..j - 1];
    assert t[j - i - 1] == s[j - 1];
    assert t[..j - i - 1][0] == s[i];
  }

  // ---------------------------------------------------------------------
  // VALUE: `(['"])(.?)\d+(_\d+)\1`

  /** `s[j..k]` is `\d+_\d+` with its underscore at `u`, stated on `s` itself. */
  predicate DigitPairSpan(s: string, j: nat, u: nat, k: nat)
    requires k <= |s|
  {
    && j < u < k - 1
    && s[u] == '_'
    && forall x :: j <= x < k && x != u ==> IsDigit(s[x])
  }

  lemma DigitPairSpanIsPair(s: string, j: nat, u: nat, k: nat)
    requires k <= |s|
    requires DigitPairSpan(s, j, u, k)
    ensures IsDigitPair(s[j..k])
  {
    var b := s[j..k];
    assert forall x :: 0 <= x < |b| ==> b[x] == s[j + x];
    assert b[u - j] == '_';
  }

  /** Where the underscore of a digit pair in `s[j..k]` sits. */
  lemma DigitPairSplit(s: string, j: nat, k: nat) returns (u: nat)
    requires j <= k <= |s|
    requires IsDigitPair(s[j..k])
    ensures DigitPairSpan(s, j, u, k)
  {
    var b := s[j..k];
    var v :| 0 < v < |b| - 1 && b[v] == '_' && forall x :: 0 <= x < |b| && x != v ==> IsDigit(b[x]);
    u := j + v;
    assert s[u] == b[v];
    forall x | j <= x < k && x != u
      ensures IsDigit(s[x])
    {
      assert b[x - j] == s[x];
    }
  }

  /** End of a `\d+_\d+` run starting at `j`, or `j` itself when there is none. */
  function DigitPairEnd(s: string, j: nat): (k: nat)
    requires j <= |s|
    ensures j <= k <= |s|
  {
    var a := DigitRunEnd(s, j);
    if j < a && a + 1 < |s| && s[a] == '_' && IsDigit(s[a + 1]) then DigitRunEnd(s, a + 1) else j
  }

  lemma DigitPairEndIsPair(s: string, j: nat)
    requires j <= |s|
    ensures var k := DigitPairEnd(s, j);
      k > j ==> IsDigitPair(s[j..k]) && (k == |s| || !IsDigit(s[k]))
  {
    var a := DigitRunEnd(s, j);
    if j < a && a + 1 < |s| && s[a] == '_' && IsDigit(s[a + 1]) {
      DigitPairSpanIsPair(s, j, a, DigitRunEnd(s, a + 1));
    }
  }

  /** A digit pair followed by a non-digit is what `DigitPairEnd` finds. */
  lemma DigitPairEndIsUnique(s: string, j: nat, u: nat, k: nat)
    requires k <= |s|
    requires DigitPairSpan(s, j, u, k)
    requires k == |s| || !IsDigit(s[k])
    ensures DigitPairEnd(s, j) == k
  {
    assert DigitRunEnd(s, j) == u;
    assert DigitRunEnd(s, u + 1) == k;
  }

  /** The length from `j` through the closing quote `q` of `\d+_\d+` then `q`; 0 if absent. */
  function ValueTail(s: string, j: nat, q: char): (n: nat)
    requires j <= |s|
    ensures j + n <= |s|
  {
    var k := DigitPairEnd(s, j);
    if k > j && k < |s| && s[k] == q then k + 1 - j else 0
  }

  lemma ValueTailIsPair(s: string, j: nat, q: char)
    requires j <= |s|
    ensures var n := ValueTail(s, j, q);
      n > 0 ==> n >= 4 && IsDigitPair(s[j..j + n - 1]) && s[j + n - 1] == q
  {
    DigitPairEndIsPair(s, j);
  }

  function MatchValue(s: string, i: nat): (n: nat)
    requires i <= |s|
    ensures i + n <= |s|
  {
    if i < |s| && IsQuote(s[i]) then
      var a := if i + 1 < |s| && s[i + 1] != '\n' then ValueTail(s, i + 2, s[i]) else 0;
      if a > 0 then a + 2
      else
        var b := ValueTail(s, i + 1, s[i]);
        if b > 0 then b + 1 else 0
    else 0
  }

  lemma MatchValueIsMatch(s: string, i: nat)
    requires i <= |s|
    ensures MatchLen(VALUE, s, i) == MatchValue(s, i)
    ensures var n := MatchValue(s, i); n > 0 ==> MatchesAt(VALUE, s, i, i + n)
  {
    if i < |s| && IsQuote(s[i]) {
      var a := if i + 1 < |s| && s[i + 1] != '\n' then ValueTail(s, i + 2, s[i]) else 0;
      if a > 0 {
        ValueWithCharIsLexeme(s, i, a);
      } else {
        var b := ValueTail(s, i + 1, s[i]);
        if b > 0 {
          ValueWithoutCharIsLexeme(s, i, b);
        }
      }
    }
  }

  lemma ValueWithCharIsLexeme(s: string, i: nat, a: nat)
    requires i + 1 < |s| && IsQuote(s[i]) && s[i + 1] != '\n'
    requires a == ValueTail(s, i + 2, s[i]) && a > 0
    ensures IsValueLexeme(s[i..i + a + 2])
  {
    ValueTailIsPair(s, i + 2, s[i]);
    var t := s[i..i + a + 2];
    SliceOfSlice(s, i, i + a + 2, 2, a + 1);
    assert t[0] == s[i] && t[1] == s[i + 1] && t[|t| - 1] == s[i + a + 1];
  }

  lemma ValueWithoutCharIsLexeme(s: string, i: nat, b: nat)
    requires i < |s| && IsQuote(s[i])
    requires b == ValueTail(s, i + 1, s[i]) && b > 0
    ensures IsValueLexeme(s[i..i + b + 1])
  {
    ValueTailIsPair(s, i + 1, s[i]);
    var t := s[i..i + b + 1];
    SliceOfSlice(s, i, i + b + 1, 1, b);
    assert t[0] == s[i] && t[|t| - 1] == s[i + b];
  }

  /** A value lexeme is the only prefix VALUE can match. */
  lemma MatchValueIsUnique(s: string, i: nat, j: nat)
    requires i < j <= |s|
    requires IsValueLexeme(s[i..j])
    ensures j == i + MatchValue(s, i)
  {
    var t := s[i..j];
    assert |t| == j - i;
    assert t[0] == s[i] && t[|t| - 1] == s[j - 1] && t[1] == s[i + 1];
    if IsDigitPair(t[2..|t| - 1]) && t[1] != '\n' {
      SliceOfSlice(s, i, j, 2, j - i - 1);
      ValueWithCharIsUnique(s, i, j);
    } else {
      SliceOfSlice(s, i, j, 1, j - i - 1);
      ValueWithoutCharIsUnique(s, i, j);
    }
  }

  lemma ValueWithCharIsUnique(s: string, i: nat, j: nat)
    requires i + 2 < j <= |s|
    requires IsQuote(s[i]) && s[i + 1] != '\n' && s[j - 1] == s[i]
    requires IsDigitPair(s[i + 2..j - 1])
    ensures j == i + MatchValue(s, i)
  {
    var u := DigitPairSplit(s, i + 2, j - 1);
    DigitPairEndIsUnique(s, i + 2, u, j - 1);
  }

  /** When the text after the quote is `\d+_\d+` up to the closing quote,
      taking its first digit as the optional character either leaves no
      digit before the underscore or leaves the rest of the same pair: the
      first alternative, if it matches, ends at the same closing quote. */
  lemma ValueWithoutCharIsUnique(s: string, i: nat, j: nat)
    requires i + 1 < j <= |s|
    requires IsQuote(s[i]) && s[j - 1] == s[i]
    requires IsDigitPair(s[i + 1..j - 1])
    ensures j == i + MatchValue(s, i)
  {
    var u := DigitPairSplit(s, i + 1, j - 1);
    DigitPairEndIsUnique(s, i + 1, u, j - 1);
    if u == i + 2 {
      assert DigitRunEnd(s, i + 2) == i + 2;
    } else {
      DigitPairEndIsUnique(s, i + 2, u, j - 1);
    }
  }

  // ---------------------------------------------------------------------
  // BOOLEAN: `\b(true|false)\b`

  /** `w` occurs at offset `i` as a whole word: `\b` holds before and after it. */
  predicate WordAt(s: string, i: nat, w: string) {
    && i + |w| <= |s|
    && s[i..i + |w|] == w
    && (i == 0 || !IsIdentChar(s[i - 1]))
    && (i + |w| == |s| || !IsIdentChar(s[i + |w|]))
  }

  function MatchBoolean(s: string, i: nat): (n: nat)
    requires i <= |s|
    ensures i + n <= |s|
  {
    if WordAt(s, i, "true") then 4 else if WordAt(s, i, "false") then 5 else 0
  }

  /** BOOLEAN matches exactly where `true` or `false` stands as a whole word. */
  lemma MatchBooleanIsMatch(s: string, i: nat)
    requires i <= |s|
    ensures MatchLen(BOOLEAN, s, i) == MatchBoolean(s, i)
    ensures var n := MatchBoolean(s, i);
      && (n > 0 <==> WordAt(s, i, "true") || WordAt(s, i, "false"))
      && (n > 0 ==> MatchesAt(BOOLEAN, s, i, i + n))
  {
  }

  lemma MatchBooleanIsUnique(s: string, i: nat, j: nat)
    requires i < j <= |s|
    requires MatchesAt(BOOLEAN, s, i, j)
    ensures j == i + MatchBoolean(s, i)
  {
    if s[i..j] == "false" {
      assert s[i] == 'f';
    }
  }

  // ---------------------------------------------------------------------
  // Patterns for one fixed text, and EMPTY_SPACE `[ \t]+`

  function MatchText(s: string, i: nat, w: string): (n: nat)
    requires i <= |s|
    ensures i + n <= |s|
  {
    if i + |w| <= |s| && s[i..i + |w|] == w then |w| else 0
  }

  lemma MatchTextIsMatch(s: string, i: nat, w: string)
    requires i <= |s|
    ensures var n := MatchText(s, i, w); n > 0 ==> s[i..i + n] == w
  {
  }

  /** A fixed text is the only prefix its pattern can match. */
  lemma MatchTextIsUnique(s: string, i: nat, w: string, j: nat)
    requires i < j <= |s|
    requires |w| > 0
    requires s[i..j] == w
    ensures j == i + MatchText(s, i, w)
  {
  }

  function MatchBlanks(s: string, i: nat): (n: nat)
    requires i <= |s|
    ensures i + n <= |s|
  {
    BlankRunEnd(s, i) - i
  }

  lemma MatchBlanksIsMatch(s: string, i: nat)
    requires i <= |s|
    ensures MatchLen(EMPTY_SPACE, s, i) == MatchBlanks(s, i)
    ensures var n := MatchBlanks(s, i);
      && (n > 0 <==> i < |s| && IsBlank(s[i]))
      && (n > 0 ==> MatchesAt(EMPTY_SPACE, s, i, i + n))
  {
  }

  /** EMPTY_SPACE matches greedily. */
  lemma MatchBlanksIsLongest(s: string, i: nat, j: nat)
    requires i < j <= |s|
    requires IsBlankRun(s[i..j])
    ensures j <= i + MatchBlanks(s, i)
  {
    BlankRunChars(s, i, j);
  }

  lemma BlankRunChars(s: string, i: nat, j: nat)
    requires i <= j <= |s|
    requires IsBlankRun(s[i..j])
    ensures forall x :: i <= x < j ==> IsBlank(s[x])
  {
    forall x | i <= x < j
      ensures IsBlank(s[x])
    {
      assert s[i..j][x - i] == s[x];
    }
  }

  // ---------------------------------------------------------------------
  // The table

  /** The length of the text the pattern of `k` matches at offset `i` of `s`
      (0: no match). */
  function MatchLen(k: TokenKind, s: string, i: nat): (n: nat)
    requires i <= |s|
    ensures i + n <= |s|
  {
    if IsFixed(k) then MatchText(s, i, FixedText(k))
    else match k
      case INTEGER => MatchInteger(s, i)
      case ATOM => MatchAtom(s, i)
      case KEY => MatchKey(s, i)
      case VALUE => MatchValue(s, i)
      case BOOLEAN => MatchBoolean(s, i)
      case _ => MatchBlanks(s, i)
  }

  /** Pattern `k` matches exactly the text `s[i..j]` at offset `i`: the text
      is one of its lexemes and, for BOOLEAN, stands as a whole word. */
  predicate MatchesAt(k: TokenKind, s: string, i: nat, j: nat) {
    && i < j <= |s|
    && IsLexemeOf(k, s[i..j])
    && (k == BOOLEAN ==> WordAt(s, i, s[i..j]))
  }

  /** What the matcher of `k` returns is a match of its pattern. */
  lemma MatchLenIsMatch(k: TokenKind, s: string, i: nat)
    requires i <= |s|
    ensures var n := MatchLen(k, s, i); n > 0 ==> MatchesAt(k, s, i, i + n)
  {
    if IsFixed(k) {
      MatchTextIsMatch(s, i, FixedText(k));
    } else {
      PatternIsMatch(k, s, i);
    }
  }

  lemma PatternIsMatch(k: TokenKind, s: string, i: nat)
    requires i <= |s|
    requires !IsFixed(k)
    ensures var n := MatchLen(k, s, i); n > 0 ==> MatchesAt(k, s, i, i + n)
  {
    if k == INTEGER || k == ATOM || k == KEY {
      WordPatternIsMatch(k, s, i);
    } else {
      OtherPatternIsMatch(k, s, i);
    }
  }

  lemma WordPatternIsMatch(k: TokenKind, s: string, i: nat)
    requires i <= |s|
    requires k == INTEGER || k == ATOM || k == KEY
    ensures var n := MatchLen(k, s, i); n > 0 ==> MatchesAt(k, s, i, i + n)
  {
    match k
    case INTEGER => MatchIntegerIsMatch(s, i);
    case ATOM => MatchAtomIsMatch(s, i);
    case KEY => MatchKeyIsMatch(s, i);
  }

  lemma OtherPatternIsMatch(k: TokenKind, s: string, i: nat)
    requires i <= |s|
    requires k == VALUE || k == BOOLEAN || k == EMPTY_SPACE
    ensures var n := MatchLen(k, s, i); n > 0 ==> MatchesAt(k, s, i, i + n)
  {
    match k
    case VALUE => MatchValueIsMatch(s, i);
    case BOOLEAN => MatchBooleanIsMatch(s, i);
    case EMPTY_SPACE => MatchBlanksIsMatch(s, i);
  }

  /** Every pattern matches the longest text it can match at `i`: the
      regular expressions are greedy and nothing after them forces a
      shorter match. In particular a matcher returning 0 means the pattern
      does not match at all. */
  lemma MatchLenIsLongest(k: TokenKind, s: string, i: nat, j: nat)
    requires i <= |s|
    ensures MatchesAt(k, s, i, j) ==> j <= i + MatchLen(k, s, i)
  {
    if MatchesAt(k, s, i, j) {
      if IsFixed(k) {
        MatchTextIsUnique(s, i, FixedText(k), j);
      } else {
        match k
        case INTEGER => MatchIntegerIsLongest(s, i, j);
        case ATOM => MatchAtomIsLongest(s, i, j);
        case KEY => MatchKeyIsUnique(s, i, j);
        case VALUE => MatchValueIsUnique(s, i, j);
        case BOOLEAN => MatchBooleanIsUnique(s, i, j);
        case _ => MatchBlanksIsLongest(s, i, j);
      }
    }
  }
}
