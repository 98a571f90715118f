/** Tokens of the literal-data language (main.py): the token kinds in their
    declaration order, the token record, the character classes the patterns
    use, and for every kind the set of lexemes its pattern can produce. */
module DataTokens {
  import opened Decimal

  /** One kind per entry of the token-definition table, in table order. */
  datatype TokenKind =
    | INTEGER
    | ATOM
    | COMMA
    | COLON
    | KEY
    | VALUE
    | BOOLEAN
    | LEFT_SQUARE_BRACKET
    | RIGHT_SQUARE_BRACKET
    | LEFT_CURLY_BRACE
    | RIGHT_CURLY_BRACE
    | PERCENTAGE_LEFT_CURLY_BRACE
    | RIGHT_ARROW
    | UNDERSCORE
    | EMPTY_SPACE
    | EOF

  /** A token: its kind, its text, and the offset just past the text. */
  datatype Token = Token(kind: TokenKind, lexeme: string, loc: nat)

  /** The order in which the tokenizer tries the patterns. */
  const Definitions: seq<TokenKind> := [
    INTEGER, ATOM, COMMA, COLON, KEY, VALUE, BOOLEAN,
    LEFT_SQUARE_BRACKET, RIGHT_SQUARE_BRACKET, LEFT_CURLY_BRACE, RIGHT_CURLY_BRACE,
    PERCENTAGE_LEFT_CURLY_BRACE, RIGHT_ARROW, UNDERSCORE, EMPTY_SPACE, EOF
  ]

  /** Position of a kind in the table. */
  function Rank(k: TokenKind): (r: nat)
    ensures r < |Definitions| && Definitions[r] == k
  {
    match k
    case INTEGER => 0
    case ATOM => 1
    case COMMA => 2
    case COLON => 3
    case KEY => 4
    case VALUE => 5
    case BOOLEAN => 6
    case LEFT_SQUARE_BRACKET => 7
    case RIGHT_SQUARE_BRACKET => 8
    case LEFT_CURLY_BRACE => 9
    case RIGHT_CURLY_BRACE => 10
    case PERCENTAGE_LEFT_CURLY_BRACE => 11
    case RIGHT_ARROW => 12
    case UNDERSCORE => 13
    case EMPTY_SPACE => 14
    case EOF => 15
  }

  /** Every kind occurs exactly once in the table. */
  lemma DefinitionsListEachKindOnce()
    ensures forall i :: 0 <= i < |Definitions| ==> Rank(Definitions[i]) == i
  {
  }

  /** The text of the patterns that match one fixed string. */
  function FixedText(k: TokenKind): string {
    match k
    case COMMA => ","
    case COLON => ":"
    case LEFT_SQUARE_BRACKET => "["
    case RIGHT_SQUARE_BRACKET => "]"
    case LEFT_CURLY_BRACE => "{"
    case RIGHT_CURLY_BRACE => "}"
    case PERCENTAGE_LEFT_CURLY_BRACE => "%{"
    case RIGHT_ARROW => "=>"
    case UNDERSCORE => "_"
    case EOF => "<EOF>"
    case _ => ""
  }

  predicate IsFixed(k: TokenKind) {
    FixedText(k) != ""
  }

  // ---------------------------------------------------------------------
  // Character classes (ASCII)

  predicate IsLetter(c: char) {
    'a' <= c <= 'z' || 'A' <= c <= 'Z'
  }

  /** `[a-zA-Z_]` */
  predicate IsIdentStart(c: char) {
    IsLetter(c) || c == '_'
  }

  /** `[a-zA-Z0-9_]`. The model also takes it as the `\w` class that `\b`
      tests; Python's `\b` on a `str` pattern uses the Unicode `\w`, which is
      larger, so word boundaries here are ASCII-only. */
  predicate IsIdentChar(c: char) {
    IsIdentStart(c) || IsDigit(c)
  }

  predicate IsQuote(c: char) {
    c == '\'' || c == '"'
  }

  predicate IsBlank(c: char) {
    c == ' ' || c == '\t'
  }

  // ---------------------------------------------------------------------
  // The lexemes each pattern can produce

  /** `\d+(_\d+)*`: digits and underscores, starting and ending with a
      digit, with no two underscores side by side. */
  predicate IsIntegerLexeme(t: string) {
    && |t| > 0
    && IsDigit(t[0])
    && IsDigit(t[|t| - 1])
    && (forall x :: 0 <= x < |t| ==> IsDigit(t[x]) || t[x] == '_')
    && (forall x, y :: 0 <= x < |t| && 0 <= y < |t| && y == x + 1 ==> IsDigit(t[x]) || IsDigit(t[y]))
  }

  /** `[a-zA-Z_][a-zA-Z0-9_]*` */
  predicate IsIdentifier(t: string) {
    |t| > 0 && IsIdentStart(t[0]) && forall i :: 0 <= i < |t| ==> IsIdentChar(t[i])
  }

  /** `:` followed by an identifier. */
  predicate IsAtomLexeme(t: string) {
    |t| > 1 && t[0] == ':' && IsIdentifier(t[1..])
  }

  /** An identifier followed by `:`. */
  predicate IsKeyLexeme(t: string) {
    |t| > 1 && t[|t| - 1] == ':' && IsIdentifier(t[..|t| - 1])
  }

  /** `\d+_\d+`: two digit runs joined by one underscore. */
  predicate IsDigitPair(b: string) {
    exists u :: 0 < u < |b| - 1 && b[u] == '_' && forall x :: 0 <= x < |b| && x != u ==> IsDigit(b[x])
  }

  /** A quote, an optional character other than a newline, `\d+_\d+`, the same quote. */
  predicate IsValueLexeme(t: string) {
    && |t| >= 5
    && IsQuote(t[0])
    && t[|t| - 1] == t[0]
    && (IsDigitPair(t[1..|t| - 1]) || (t[1] != '\n' && IsDigitPair(t[2..|t| - 1])))
  }

  predicate IsBooleanLexeme(t: string) {
    t == "true" || t == "false"
  }

  /** `[ \t]+` */
  predicate IsBlankRun(t: string) {
    |t| > 0 && forall i :: 0 <= i < |t| ==> IsBlank(t[i])
  }

  /** The lexemes the pattern of kind `k` produces. */
  predicate IsLexemeOf(k: TokenKind, t: string) {
    if IsFixed(k) then t == FixedText(k)
    else match k
      case INTEGER => IsIntegerLexeme(t)
      case ATOM => IsAtomLexeme(t)
      case KEY => IsKeyLexeme(t)
      case VALUE => IsValueLexeme(t)
      case BOOLEAN => IsBooleanLexeme(t)
      case _ => IsBlankRun(t)
  }

  predicate WellFormed(t: Token) {
    IsLexemeOf(t.kind, t.lexeme)
  }
}
