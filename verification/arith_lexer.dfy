/** The lexer of the arithmetic language (src/Lexer.java).

    Three rules are tried in a fixed order at the start of the remaining text;
    the first whose pattern matches a non-empty prefix wins, and that prefix
    is the longest one its greedy pattern takes. Java's `.` does not match the
    line terminators `\r`, U+0085, U+2028 and U+2029, so none of the three
    rules matches a text starting with one of them: `nextMatch` returns
    `null`, the tokenizer dereferences it and throws, and here it fails at
    that offset. Strings are sequences of code points, as Java's patterns
    see them; an unpaired surrogate, which a Java `String` can hold, has no
    `char` here. */
module ArithLexer {
  import opened Results
  import opened Decimal

  datatype Token = Token(kind: string, lexeme: string)

  /** The rules, in the order `initializeRegexs` lists them
      (src/Lexer.java:22-28). */
  datatype Rule = Ignore | Int | Char

  const Rules: seq<Rule> := [Ignore, Int, Char]

  function RuleName(r: Rule): string {
    match r
    case Ignore => "IGNORE"
    case Int => "INT"
    case Char => "CHAR"
  }

  const EofToken := Token("<EOF>", "<EOF>")

  // ---------------------------------------------------------------------
  // Characters

  predicate IsBlank(c: char) {
    c == ' ' || c == '\t'
  }

  /** The characters Java's `.` does not match (no `DOTALL`, no `UNIX_LINES`). */
  predicate IsLineTerminator(c: char) {
    c == '\n' || c == '\r' || c == '\U{0085}' || c == '\U{2028}' || c == '\U{2029}'
  }

  /** The characters no rule matches. */
  predicate IsStuck(c: char) {
    IsLineTerminator(c) && c != '\n'
  }

  // ---------------------------------------------------------------------
  // The text each pattern matches

  /** `(?:[ \t]+|#.*)+`: pieces that are each a run of blanks or a `#`
      followed by anything but a line terminator. Since a comment swallows
      every blank and `#` after it, such a text is a run of blanks and then,
      possibly, one comment: every character before the first `#` is a
      blank, and no character is a line terminator. */
  predicate IsIgnoreText(t: string) {
    && |t| > 0
    && (forall i :: 0 <= i < |t| ==> !IsLineTerminator(t[i]))
    && (forall i :: 0 <= i < |t| && '#' !in t[..i] ==> IsBlank(t[i]) || t[i] == '#')
  }

  /** `\d+`: Java's `\d` is the ASCII digits. */
  predicate IsIntText(t: string) {
    |t| > 0 && AllDigits(t)
  }

  /** `.|\n`: one character that is not a line terminator, or a newline. */
  predicate IsCharText(t: string) {
    |t| == 1 && !IsStuck(t[0])
  }

  predicate Matches(r: Rule, t: string) {
    match r
    case Ignore => IsIgnoreText(t)
    case Int => IsIntText(t)
    case Char => IsCharText(t)
  }

  // ---------------------------------------------------------------------
  // The matchers: how much of the text `lookingAt` takes (0 for no match)

  /** The offset of the first line terminator of `s`, or its length. */
  function LineLen(s: string): (n: nat)
    ensures n <= |s|
    ensures forall i :: 0 <= i < n ==> !IsLineTerminator(s[i])
    ensures n < |s| ==> IsLineTerminator(s[n])
  {
    if |s| == 0 || IsLineTerminator(s[0]) then 0 else 1 + LineLen(s[1..])
  }

  function IgnoreLen(s: string): (n: nat)
    ensures n <= |s|
  {
    if |s| > 0 && IsBlank(s[0]) then 1 + IgnoreLen(s[1..])
    else if |s| > 0 && s[0] == '#' then LineLen(s)
    else 0
  }

  function DigitRun(s: string): (n: nat)
    ensures n <= |s|
  {
    if |s| > 0 && IsDigit(s[0]) then 1 + DigitRun(s[1..]) else 0
  }

  function CharLen(s: string): (n: nat)
    ensures n <= 1 && n <= |s|
  {
    if |s| > 0 && !IsStuck(s[0]) then 1 else 0
  }

  function MatchLen(r: Rule, s: string): (n: nat)
    ensures n <= |s|
  {
    match r
    case Ignore => IgnoreLen(s)
    case Int => DigitRun(s)
    case Char => CharLen(s)
  }

  /** The matcher of each rule takes the longest prefix its pattern matches,
      and takes nothing exactly when no non-empty prefix matches. */
  lemma {:induction false} MatchLenIsLongest(r: Rule, s: string)
    ensures MatchLen(r, s) > 0 ==> Matches(r, s[..MatchLen(r, s)])
    ensures forall m :: 0 < m <= |s| && Matches(r, s[..m]) ==> m <= MatchLen(r, s)
  {
    match r
    case Ignore => IgnoreLenIsLongest(s);
    case Int => DigitRunIsLongest(s);
    case Char =>
  }

  lemma {:induction false} DigitRunIsLongest(s: string)
    ensures DigitRun(s) > 0 ==> IsIntText(s[..DigitRun(s)])
    ensures forall m :: 0 < m <= |s| && IsIntText(s[..m]) ==> m <= DigitRun(s)
    ensures DigitRun(s) < |s| ==> !IsDigit(s[DigitRun(s)])
    decreases |s|
  {
    if |s| > 0 && IsDigit(s[0]) {
      var t := s[1..];
      DigitRunIsLongest(t);
      var n := DigitRun(s);
      assert forall i :: 0 < i < n ==> s[..n][i] == t[..n - 1][i - 1];
      forall m | 0 < m <= |s| && IsIntText(s[..m])
        ensures m <= n
      {
        if m > 1 {
          assert IsIntText(t[..m - 1]) by {
            var u, v := t[..m - 1], s[..m];
            assert forall i :: 0 <= i < m - 1 ==> u[i] == v[i + 1];
          }
        }
      }
    } else {
      forall m | 0 < m <= |s|
        ensures !IsIntText(s[..m])
      {
        assert s[..m][0] == s[0];
      }
    }
  }

  lemma {:induction false} IgnoreLenIsLongest(s: string)
    ensures IgnoreLen(s) > 0 ==> IsIgnoreText(s[..IgnoreLen(s)])
    ensures forall m :: 0 < m <= |s| && IsIgnoreText(s[..m]) ==> m <= IgnoreLen(s)
    decreases |s|
  {
    if |s| > 0 && IsBlank(s[0]) {
      var t := s[1..];
      IgnoreLenIsLongest(t);
      BlankThenIgnore(s);
      forall m | 0 < m <= |s| && IsIgnoreText(s[..m])
        ensures m <= IgnoreLen(s)
      {
        if m > 1 {
          IgnoreAfterBlank(s, m);
        }
      }
    } else if |s| > 0 && s[0] == '#' {
      var n := LineLen(s);
      assert IsIgnoreText(s[..n]) by {
        assert forall i :: 0 < i < n ==> '#' in s[..n][..i] by {
          forall i | 0 < i < n
            ensures '#' in s[..n][..i]
          {
            assert s[..n][..i][0] == '#';
          }
        }
      }
      forall m | n < m <= |s|
        ensures !IsIgnoreText(s[..m])
      {
        assert s[..m][n] == s[n];
      }
    } else {
      forall m | 0 < m <= |s|
        ensures !IsIgnoreText(s[..m])
      {
        assert s[..m][..0] == [];
        assert s[..m][0] == s[0];
      }
    }
  }

  /** A blank followed by ignorable text, or by nothing, is ignorable text. */
  lemma {:induction false} BlankThenIgnore(s: string)
    requires |s| > 0 && IsBlank(s[0])
    requires IgnoreLen(s[1..]) > 0 ==> IsIgnoreText(s[1..][..IgnoreLen(s[1..])])
    ensures IsIgnoreText(s[..IgnoreLen(s)])
  {
    var t := s[1..];
    var n := IgnoreLen(s);
    var u := s[..n];
    assert forall i :: 0 < i < n ==> u[i] == t[..n - 1][i - 1];
    forall i | 0 <= i < n && '#' !in u[..i]
      ensures IsBlank(u[i]) || u[i] == '#'
    {
      if i > 0 {
        assert u[..i] == [s[0]] + t[..n - 1][..i - 1];
        assert '#' !in t[..n - 1][..i - 1];
      }
    }
  }

  /** Ignorable text that starts with a blank goes on with ignorable text. */
  lemma {:induction false} IgnoreAfterBlank(s: string, m: nat)
    requires 1 < m <= |s| && IsBlank(s[0]) && IsIgnoreText(s[..m])
    ensures IsIgnoreText(s[1..][..m - 1])
  {
    var t := s[1..][..m - 1];
    var u := s[..m];
    assert forall i :: 0 <= i < m - 1 ==> t[i] == u[i + 1];
    forall i | 0 <= i < m - 1 && '#' !in t[..i]
      ensures IsBlank(t[i]) || t[i] == '#'
    {
      assert u[..i + 1] == [u[0]] + t[..i];
      assert '#' !in u[..i + 1];
    }
  }

  // ---------------------------------------------------------------------
  // nextMatch

  /** `nextMatch` (src/Lexer.java:30-37): the first rule, in the order of
      `Rules`, that matches a non-empty prefix, with the length it matches. */
  function NextMatch(s: string): (r: Option<(Rule, nat)>)
    ensures r.Some? ==> 0 < r.value.1 <= |s|
  {
    if IgnoreLen(s) > 0 then Some((Ignore, IgnoreLen(s)))
    else if DigitRun(s) > 0 then Some((Int, DigitRun(s)))
    else if CharLen(s) > 0 then Some((Char, CharLen(s)))
    else None
  }

  /** The match `nextMatch` picks is the longest of the first rule in order
      that matches at all; no rule matches exactly when the text is empty or
      starts with a line terminator other than `\n`. */
  lemma {:induction false} NextMatchIsFirstRule(s: string)
    ensures NextMatch(s).None? <==> |s| == 0 || IsStuck(s[0])
    ensures NextMatch(s).Some? ==>
      var (r, n) := NextMatch(s).value;
      && 0 < n <= |s| && Matches(r, s[..n])
      && (forall m :: 0 < m <= |s| && Matches(r, s[..m]) ==> m <= n)
      && forall q, m :: 0 <= q < |Rules| && Rules[q] != r && RuleBefore(Rules[q], r) && 0 < m <= |s| ==>
           !Matches(Rules[q], s[..m])
    ensures NextMatch(s).None? ==>
      forall r, m :: 0 < m <= |s| ==> !Matches(r, s[..m])
  {
    MatchLenIsLongest(Ignore, s);
    MatchLenIsLongest(Int, s);
    MatchLenIsLongest(Char, s);
    if |s| > 0 && IsStuck(s[0]) {
      assert IgnoreLen(s) == 0 && DigitRun(s) == 0;
    }
  }

  /** `a` comes before `b` in `Rules`. */
  predicate RuleBefore(a: Rule, b: Rule) {
    (a == Ignore && b != Ignore) || (a == Int && b == Char)
  }

  // ---------------------------------------------------------------------
  // tokenize

  /** One match of the tokenizer's loop: the rule and the text it took. */
  datatype Piece = Piece(rule: Rule, text: string)

  /** The matches the loop of `tokenize` makes (src/Lexer.java:41-54), or the
      offset where `nextMatch` finds nothing. */
  function Pieces(s: string): (r: Result<seq<Piece>, nat>)
    ensures r.Err? ==> r.error < |s| && IsStuck(s[r.error])
    decreases |s|
  {
    if |s| == 0 then Ok([])
    else if NextMatch(s).None? then Err(0)
    else
      var m := NextMatch(s).value;
      var more := Pieces(s[m.1..]);
      if more.Ok? then Ok([Piece(m.0, s[..m.1])] + more.value)
      else Err(m.1 + more.error)
  }

  /** The token a match gives: none for IGNORE, kind `INT` for INT, and the
      character itself as the kind for CHAR (src/Lexer.java:46-51). */
  function Kept(ps: seq<Piece>): seq<Token> {
    if |ps| == 0 then []
    else if ps[0].rule == Ignore then Kept(ps[1..])
    else
      var kind := if ps[0].rule == Char then ps[0].text else "INT";
      [Token(kind, ps[0].text)] + Kept(ps[1..])
  }

  /** `tokenize` (src/Lexer.java:39-57). */
  function Tokenize(s: string): Result<seq<Token>, nat> {
    var ps :- Pieces(s);
    Ok(Kept(ps) + [EofToken])
  }

  function Concat(ps: seq<Piece>): string {
    if |ps| == 0 then [] else ps[0].text + Concat(ps[1..])
  }

  // ---------------------------------------------------------------------
  // What the tokenizer guarantees

  /** One step of the loop: the first match, then the matches of the rest. */
  lemma {:induction false} PiecesStep(s: string)
    requires |s| > 0 && NextMatch(s).Some?
    ensures var (r, n) := NextMatch(s).value;
      && 0 < n <= |s|
      && (Pieces(s[n..]).Ok? ==> Pieces(s) == Ok([Piece(r, s[..n])] + Pieces(s[n..]).value))
      && (Pieces(s[n..]).Err? ==> Pieces(s) == Err(n + Pieces(s[n..]).error))
  {
  }

  /** The matches, kept and ignored, spell the input back. */
  lemma {:induction false} PiecesSpellInput(s: string)
    ensures Pieces(s).Ok? ==> Concat(Pieces(s).value) == s
    decreases |s|
  {
    if |s| > 0 && NextMatch(s).Some? {
      PiecesStep(s);
      var (r, n) := NextMatch(s).value;
      var rest := s[n..];
      PiecesSpellInput(rest);
      if Pieces(rest).Ok? {
        var ps := Pieces(s).value;
        assert ps[1..] == Pieces(rest).value;
        assert s[..n] + rest == s;
      }
    }
  }

  /** A character CHAR takes once IGNORE and INT have not matched. */
  predicate IsCharKind(c: char) {
    !IsBlank(c) && c != '#' && !IsDigit(c) && !IsStuck(c)
  }

  /** A match is a non-empty text its rule's pattern matches, and a CHAR
      match is a character the earlier rules do not take. */
  predicate WellMatched(p: Piece) {
    && |p.text| > 0
    && Matches(p.rule, p.text)
    && (p.rule == Char ==> IsCharKind(p.text[0]))
  }

  /** CHAR matches only when neither IGNORE nor INT does. */
  lemma {:induction false} CharComesLast(s: string)
    requires NextMatch(s).Some? && NextMatch(s).value.0 == Char
    ensures IsCharKind(s[0])
  {
    assert IgnoreLen(s) == 0 && DigitRun(s) == 0;
  }

  /** Each match is well matched. */
  lemma {:induction false} PiecesMatchTheirRules(s: string)
    ensures Pieces(s).Ok? ==>
      var ps := Pieces(s).value;
      forall i :: 0 <= i < |ps| ==> WellMatched(ps[i])
    decreases |s|
  {
    if |s| > 0 && NextMatch(s).Some? {
      PiecesStep(s);
      NextMatchIsFirstRule(s);
      if NextMatch(s).value.0 == Char {
        CharComesLast(s);
      }
      var (r, n) := NextMatch(s).value;
      var rest := s[n..];
      PiecesMatchTheirRules(rest);
      if Pieces(rest).Ok? {
        var ps := Pieces(s).value;
        var more := Pieces(rest).value;
        assert forall i :: 0 < i < |ps| ==> ps[i] == more[i - 1];
      }
    }
  }

  /** An INT match is never directly followed by another: the digit run it
      took was the longest. */
  lemma {:induction false} IntsAreSeparated(s: string)
    ensures Pieces(s).Ok? ==>
      var ps := Pieces(s).value;
      forall i :: 0 <= i < |ps| - 1 ==> !(ps[i].rule == Int && ps[i + 1].rule == Int)
    decreases |s|
  {
    if |s| > 0 && NextMatch(s).Some? {
      PiecesStep(s);
      var (r, n) := NextMatch(s).value;
      var rest := s[n..];
      IntsAreSeparated(rest);
      if Pieces(rest).Ok? {
        var ps := Pieces(s).value;
        var more := Pieces(rest).value;
        assert forall i :: 0 < i < |ps| ==> ps[i] == more[i - 1];
        if r == Int && |more| > 0 {
          DigitRunIsLongest(s);
          assert !IsDigit(rest[0]) by {
            assert rest[0] == s[n];
          }
          PiecesStep(rest);
          assert more[0].rule != Int;
        }
      }
    }
  }

  /** The shape of every token but the last: `INT` with a digit run, or a
      single character that is its own kind. */
  predicate TokenShape(t: Token) {
    || (t.kind == "INT" && IsIntText(t.lexeme))
    || (t.kind == t.lexeme && |t.lexeme| == 1 && IsCharKind(t.lexeme[0]))
  }

  lemma {:induction false} KeptShape(ps: seq<Piece>)
    requires forall i :: 0 <= i < |ps| ==> WellMatched(ps[i])
    ensures forall i :: 0 <= i < |Kept(ps)| ==> TokenShape(Kept(ps)[i])
    ensures |Kept(ps)| <= |ps|
  {
    if |ps| > 0 {
      var rest := ps[1..];
      assert forall i :: 0 <= i < |rest| ==> rest[i] == ps[i + 1];
      KeptShape(rest);
      if ps[0].rule != Ignore {
        var ts := Kept(ps);
        assert TokenShape(ts[0]);
        assert forall i :: 0 < i < |ts| ==> ts[i] == Kept(rest)[i - 1];
      }
    }
  }

  /** `tokenize` ends with exactly one `<EOF>` token, and every token before
      it is an `INT` digit run or a one-character token (src/Lexer.java:46-56). */
  lemma {:induction false} TokenizeShape(s: string)
    ensures Tokenize(s).Ok? <==> Pieces(s).Ok?
    ensures Tokenize(s).Ok? ==>
      var ts := Tokenize(s).value;
      && |ts| > 0 && ts[|ts| - 1] == EofToken
      && forall i :: 0 <= i < |ts| - 1 ==> TokenShape(ts[i]) && ts[i].kind != "<EOF>"
  {
    if Pieces(s).Ok? {
      PiecesMatchTheirRules(s);
      KeptShape(Pieces(s).value);
      var ts := Tokenize(s).value;
      assert forall i :: 0 <= i < |ts| - 1 ==> ts[i] == Kept(Pieces(s).value)[i];
    }
  }

  /** `s` holds no character that no rule matches. */
  predicate NoStuck(s: string) {
    forall i :: 0 <= i < |s| ==> !IsStuck(s[i])
  }

  /** No pattern matches a text holding a line terminator other than `\n`. */
  lemma {:induction false} MatchedTextIsNotStuck(r: Rule, t: string)
    requires Matches(r, t)
    ensures NoStuck(t)
  {
  }

  /** The offset of the first character no rule matches, or the length of
      `s` when there is none. */
  function FirstStuck(s: string): (k: nat)
    ensures k <= |s|
  {
    if |s| == 0 || IsStuck(s[0]) then 0 else 1 + FirstStuck(s[1..])
  }

  lemma {:induction false} FirstStuckIsFirst(s: string)
    ensures NoStuck(s[..FirstStuck(s)])
    ensures FirstStuck(s) < |s| ==> IsStuck(s[FirstStuck(s)])
    decreases |s|
  {
    if |s| > 0 && !IsStuck(s[0]) {
      var k := FirstStuck(s[1..]);
      FirstStuckIsFirst(s[1..]);
      var u, v := s[..1 + k], s[1..][..k];
      assert forall i :: 0 < i < 1 + k ==> u[i] == v[i - 1];
    }
  }

  /** Skipping a text free of such characters adds its length to the
      offset of the first one. */
  lemma {:induction false} FirstStuckSkips(s: string, n: nat)
    requires n <= |s| && NoStuck(s[..n])
    ensures FirstStuck(s) == n + FirstStuck(s[n..])
    decreases n
  {
    if n > 0 {
      assert !IsStuck(s[..n][0]);
      var t := s[1..];
      var u, v := t[..n - 1], s[..n];
      assert forall i :: 0 <= i < n - 1 ==> u[i] == v[i + 1];
      FirstStuckSkips(t, n - 1);
      assert t[n - 1..] == s[n..];
    }
  }

  /** The text `nextMatch` takes holds no line terminator but `\n`. */
  lemma {:induction false} NextMatchIsNotStuck(s: string)
    requires NextMatch(s).Some?
    ensures NoStuck(s[..NextMatch(s).value.1])
  {
    var (r, n) := NextMatch(s).value;
    MatchLenIsLongest(r, s);
    assert MatchLen(r, s) == n;
    MatchedTextIsNotStuck(r, s[..n]);
  }

  /** Tokenizing fails exactly when the text holds a line terminator other
      than `\n`, and it fails at the first one (`FirstStuckIsFirst`): no
      match can take such a character, and every other character is taken by
      some match. */
  lemma {:induction false} FailsAtFirstStuck(s: string)
    ensures Pieces(s).Err? <==> FirstStuck(s) < |s|
    ensures Pieces(s).Err? ==> Pieces(s).error == FirstStuck(s)
    decreases |s|
  {
    if |s| > 0 && NextMatch(s).Some? {
      PiecesStep(s);
      var n := NextMatch(s).value.1;
      NextMatchIsNotStuck(s);
      FirstStuckSkips(s, n);
      FailsAtFirstStuck(s[n..]);
    }
  }
}
