# Literal data and arithmetic to JSON

The repository holds two small front ends that read a text from standard
input and print it as JSON.

- The literal-data program (`main.py`) reads Elixir-style data literals.
  These are integers with `_` groups, `:atoms`, `key:` keys, quoted "values",
  `true`/`false`, lists `[…]`, tuples `{…}` and maps `%{…}` with `=>`, `:`
  or adjacent key/value pairs. It tokenizes the text with an ordered table of
  regular expressions. A recursive-descent parser builds a sentence of
  literals. Each literal is printed as a tagged JSON object
  `{"%k": kind, "%v": value}`.
- The arithmetic program (`src/Lexer.java`, `src/Parser.java`) reads lines
  of integer expressions with `+ - * /`, unary minus and parentheses. It
  tokenizes with three rules (ignore, integer, any character). It parses
  with the usual precedence and left associativity, and prints the tree as
  `{"tag": op, "kids": […]}` nodes, integers and a top-level list.

The Dafny model follows that structure, one module per concern:

- `Results`, `Seqs` and `Decimal` hold shared vocabulary. `Decimal` covers
  ASCII digits, the value of a digit string, and `NatToString`.
- The literal-data program is modelled by:
  - `DataTokens`: the token kinds in table order;
  - `DataPatterns`: one matcher per pattern, each proved to find exactly
    what its regular expression matches;
  - `DataLexer`: the skip pattern, first-pattern-wins selection and
    `tokenize`, specified by the relational predicates `Lexes` and
    `FailsAt`;
  - `DataAst`: the literal tree;
  - `DataParser`: `literal`, `sentence`, the three container parsers and
    `parse_key_pair`, as functions from a token list to a result and the
    tokens left over;
  - `DataJson`: the `as_json` methods;
  - `DataJsonReader`: a decoder used as the serializer's partner;
  - `DataPrinter`: an emitter of token lists used as the parser's
    partner;
  - `DataPipeline`: the program end to end.
- The arithmetic program is modelled by:
  - `ArithLexer`: `nextMatch` and `tokenize`;
  - `ArithParser`: `program`, `expr`, `term`, `factor`, `consume` and
    `parse`;
  - `ArithGrammar`: an emitter of token lists and the parse round trip;
  - `ArithJson`: `toJson` and a reader that inverts it.
- `DataLexerExamples`, `DataParserExamples`, `DataJsonExamples` and
  `ArithExamples` pin down concrete inputs.

In the model, every way the programs stop early is a value, not a
precondition:

- `sys.exit(1)` after a message in `main.py` is `None` in the parser, or
  `InvalidToken(pos)` in the lexer.
- An exception that `as_json` raises, such as a bare token or a `None`
  inside a pair, is `None` in the serializer.
- In the arithmetic program, `die` is `SyntaxError(expected, found)`.
- Reading past the last token is `NoToken`.
- An `Integer.valueOf` overflow is `BadInt`.
- A character that `nextMatch` cannot take is `Err(offset)`. Such a
  character is a line terminator other than `\n`.

## Model

| member | source | states |
|---|---|---|
| DataTokens.Rank | main.py:4-21 | every token kind has a position in the pattern table, and the table holds that kind at that position |
| DataTokens.DefinitionsListEachKindOnce | main.py:4-21 | no kind appears twice in the table, so the order in which patterns are tried is well defined |
| DataPatterns.MatchIntegerIsMatch | main.py:5 | the integer matcher succeeds exactly at a digit, and what it takes is a digit run with `_` groups that cannot be extended |
| DataPatterns.MatchIntegerIsLongest | main.py:5 | no integer lexeme starting at the same offset is longer than the match |
| DataPatterns.MatchAtomIsMatch | main.py:6 | the atom matcher succeeds exactly at a colon followed by an identifier start, and takes the whole identifier |
| DataPatterns.MatchAtomIsLongest | main.py:6 | no atom lexeme at the same offset is longer |
| DataPatterns.MatchKeyIsMatch | main.py:9 | what the key matcher takes is an identifier followed by a colon |
| DataPatterns.MatchKeyIsUnique | main.py:9 | any key lexeme at that offset is exactly the match |
| DataPatterns.MatchValueIsMatch | main.py:10 | what the value matcher takes is a quote, an optional character, two digit runs joined by exactly one underscore, and the same quote |
| DataPatterns.MatchValueIsUnique | main.py:10 | any value lexeme at that offset is exactly the match, so backtracking over the optional character cannot find another one |
| DataPatterns.MatchBooleanIsMatch | main.py:11 | the boolean matcher succeeds exactly where `true` or `false` stands between two word boundaries; the left boundary looks at the character before the offset |
| DataPatterns.MatchBooleanIsUnique | main.py:11 | any boolean match at that offset is exactly the one found |
| DataPatterns.MatchTextIsMatch | main.py:7-20 | a fixed-text pattern such as `,`, `:`, `%{`, `=>` or `<EOF>` takes exactly its text |
| DataPatterns.MatchTextIsUnique | main.py:7-20 | where the fixed text occurs, the match is that text |
| DataPatterns.MatchBlanksIsMatch | main.py:19 | the blank pattern matches exactly at a space or tab |
| DataPatterns.MatchBlanksIsLongest | main.py:19 | no run of blanks at the same offset is longer |
| DataPatterns.MatchLenIsLongest | main.py:4-21 | for every kind, each match of its pattern at an offset ends no later than the matcher's result |
| DataLexer.SkipEndIsLongestSkip | main.py:260 | the skip position is the longest prefix of blanks, newlines and `#` comments to line end, as the greedy `SKIP_RE` takes it |
| DataLexer.FirstMatchIsFirstLongest | main.py:276-283 | the chosen kind is the first in table order whose pattern matches, and its match is that pattern's own; when nothing is chosen no pattern matches |
| DataLexer.FirstLongestIsUnique | main.py:276-283 | the first-pattern choice at an offset is unique |
| DataLexer.Tokenize | main.py:263-291 | on success, the tokens before the last are the unique scan of the whole input and the last is `EOF` at one past the input's length; on failure, the offset is where the scan gets stuck after skipping |
| DataLexer.LexesIsUnique | main.py:263-291 | an input has at most one tokenization |
| DataLexer.FailureIsUnique | main.py:284-288 | an input gets stuck at one offset only, after one token prefix |
| DataLexer.LexesExcludesFailure | main.py:263-291 | an input that tokenizes never also fails |
| DataLexer.ScannedTokensAreWellFormed | main.py:19 | no scanned token is blank space, because the skip pattern always takes blanks first, and each lexeme fits its kind |
| DataLexer.ScannedTokensAreOrdered | main.py:281-282 | each token's location is the offset just past its lexeme; tokens do not overlap and come in input order |
| DataParser.CheckToken | main.py:35-38 | the head is taken exactly when it has the asked kind; otherwise nothing is consumed |
| DataParser.Degenerate | main.py:51-68 | after a `:`, `=>` or `<EOF>` token, the result is a second token of the same kind, taken raw, or `None`; it is never a data literal |
| DataParser.Separator | main.py:92-95 | a separator fails exactly when a comma is directly followed by the closer; otherwise an optional comma is dropped |
| DataParser.ParseLeaf | main.py:51-74 | a one-token literal is read exactly when the head starts a literal and is not an opener |
| DataParser.AfterOpener | main.py:86-88 | a container's opener is taken twice when it is doubled, otherwise once |
| DataParser.ParseLiteral | main.py:40-78 | a literal is read only at a token that starts one, and consumes at least that token; at any other token, reading fails |
| DataParser.ParseContainer | main.py:86-124 | a container parse yields a data literal and consumes its tokens |
| DataParser.ParseItems | main.py:89-97 | the items of a list or tuple end at, and consume, the closer |
| DataParser.ParseKeyPair | main.py:126-144 | a key pair that is read consumes at least the key's first token |
| DataParser.SkipConnector | main.py:129-136 | an optional `=>` or `:` between key and value is dropped |
| DataParser.ParsePairs | main.py:116-123 | the pairs of a map end at, and consume, `}` |
| DataParser.ParseSentence | main.py:80-84 | a sentence fails at a token that does not start a literal, and holds no more literals than tokens |
| DataParser.DoubledOpenerIsSwallowed | main.py:42-50 | `[[x` reads like `[x`: the container parser swallows a second opener |
| DataParser.TrailingCommaFails | main.py:92-95 | a comma right before `]` or `}` makes a list or tuple fail |
| DataParser.TrailingCommaFailsInMap | main.py:118-121 | a comma right before `}` makes a map fail |
| DataPrinter.EmitStart | main.py:40-74 | an emitted literal starts with a token that starts a literal, and with an opener exactly when it is a container |
| DataPrinter.LiteralRoundTrip | main.py:40-78 | parsing an emitted literal, in any comma and connector style, gives the literal back and leaves the tail untouched |
| DataPrinter.ItemsRoundTrip | main.py:86-111 | emitted items followed by the closer parse back to the same items |
| DataPrinter.KeyPairRoundTrip | main.py:126-144 | an emitted pair, with `=>`, `:` or nothing between key and value, parses back to the pair |
| DataPrinter.PairsRoundTrip | main.py:113-124 | emitted pairs followed by `}` parse back to the same pairs |
| DataPrinter.SentenceRoundTrip | main.py:80-84 | an emitted sentence followed by EOF parses back to its literals followed by the `None` that the EOF token yields |
| DataJson.Reverse | main.py:238-239 | the key text is the lexeme reversed, character by character |
| DataJson.IntValue | main.py:224-225 | `int` succeeds exactly on the integer lexemes the lexer produces |
| DataJson.BoolValue | main.py:245-247 | a boolean is true exactly when its lexeme is `true` |
| DataJson.SentenceJson | main.py:164-165 | a sentence has JSON exactly when each literal that is not `None` has JSON |
| DataJson.ItemsJsonKeepsOrder | main.py:193-202 | the JSON items are those of the literals that are not `None`, in the same order; one failing literal fails the container |
| DataJson.PairsJsonKeepsOrder | main.py:209-210 | the JSON of a map holds each pair's JSON in order |
| DataJson.PairJsonShape | main.py:254-255 | a pair is the two-element array of key and value, and fails when either is `None` |
| DataJsonReader.JsonRoundTrip | main.py:164-255 | decoding the JSON of a literal in canonical form gives the literal back |
| DataJsonReader.PairJsonRoundTrip | main.py:254-255 | decoding a pair's JSON gives the pair back |
| DataJsonReader.IntValueOfNatToString | main.py:224-225 | `int` of a number's decimal text is that number |
| DataJsonReader.LeadingZeroIsIgnored | main.py:224-225 | a leading zero does not change an integer's value |
| DataJsonReader.UnderscoreIsIgnored | main.py:224-225 | an underscore between digit groups does not change an integer's value |
| DataJsonExamples.KeyIsReversedAtom | main.py:231-239 | a key prints as the atom spelled backwards |
| DataJsonExamples.UnderscoreExample | main.py:224-225 | `1_000` prints as the integer 1000 |
| DataPipeline.Convert | main.py:297-300 | each outcome is pinned down: an invalid token at the offset where the input is stuck, a parser failure on its unique tokenization, or the JSON of the parsed sentence |
| DataPipeline.TreesRoundTrip | main.py:297-300 | text emitted from canonical literals tokenizes, parses and prints to JSON that decodes back to those literals |
| DataLexerExamples.AtomExample | main.py:6-8 | `:foo` is one atom, although the colon pattern also matches |
| DataLexerExamples.KeyBeforeBooleanExample | main.py:9-11 | `true:` is a key, because the key pattern comes first |
| DataLexerExamples.GroupedIntegerExample | main.py:5 | `1_000` is one integer token |
| DataLexerExamples.CommentExample | main.py:260 | a comment is skipped to the end of its line |
| DataLexerExamples.BareWordFails | main.py:284-288 | a bare word such as `age` is an invalid token at offset 0 |
| DataParserExamples.OptionalCommaExample | main.py:89-97 | `[1 2]` and `[1, 2]` parse alike |
| DataParserExamples.DoubledOpenerExample | main.py:42-44 | `[[1]` is the list `[1]` |
| DataParserExamples.BalancedDoubledOpenerExample | main.py:42-44 | `[[1]]` fails |
| DataParserExamples.NestedListExample | main.py:86-98 | `[1,[2]]` nests a list in a list |
| DataParserExamples.MissingCloserExample | main.py:96-97 | `[1` fails |
| DataParserExamples.DoubledColonExample | main.py:51-53 | `: :` yields the second colon token itself |
| DataParserExamples.MapExample | main.py:113-144 | `%{a: 1, :b => 2}` is a map of two pairs |
| Decimal.DigitsValueOfNatToString | main.py:224-225 | the decimal text of a number denotes that number |
| Decimal.LeadingZeros | main.py:224-225 | leading zeros do not change the value of a digit string |
| ArithLexer.MatchLenIsLongest | src/Lexer.java:22-28 | each rule's match is a text of that rule, and no longer prefix matches the rule |
| ArithLexer.NextMatchIsFirstRule | src/Lexer.java:30-37 | `nextMatch` picks the first rule that matches and its longest match; it finds nothing exactly at the end of the text or at a line terminator other than `\n` |
| ArithLexer.PiecesSpellInput | src/Lexer.java:39-54 | the matched pieces put together give back the input |
| ArithLexer.PiecesMatchTheirRules | src/Lexer.java:39-54 | each piece matches its rule, and a one-character piece is one the earlier rules do not take |
| ArithLexer.IntsAreSeparated | src/Lexer.java:25 | two integer tokens are never adjacent pieces, since a digit run is taken whole |
| ArithLexer.TokenizeShape | src/Lexer.java:39-57 | a tokenization succeeds exactly when the pieces do; it ends with `<EOF>`, and the other tokens are `INT` with a digit lexeme or a character whose kind is itself |
| ArithLexer.FailsAtFirstStuck | src/Lexer.java:30-44 | tokenizing fails exactly when a character `nextMatch` cannot take occurs, and at the first such offset |
| ArithParser.IntOfDigits | src/Parser.java:102 | `Integer.valueOf` of a digit lexeme succeeds exactly when the value fits in `int`, and then gives that value |
| ArithParser.IntOfNatToString | src/Parser.java:102 | the decimal text of an `int` value reads back as that value |
| ArithParser.Consume | src/Parser.java:122-131 | a token is consumed exactly when it has the expected kind and one follows; the wrong kind is a syntax error naming the expected kind and the found lexeme |
| ArithParser.Expr | src/Parser.java:66-77 | an expression consumes at least one token, leaves a suffix, and tags every node with an operator |
| ArithParser.Term | src/Parser.java:79-90 | a term consumes at least one token, leaves a suffix, and tags every node with an operator |
| ArithParser.Factor | src/Parser.java:92-112 | a factor consumes at least one token, leaves a suffix, and tags every node with an operator |
| ArithParser.IntValue | src/Parser.java:101-105 | an integer lexeme gives its value or the `BadInt` failure |
| ArithParser.SkipNewlines | src/Parser.java:52-54 | skipping newlines stops at a token that is not a newline |
| ArithParser.Program | src/Parser.java:51-64 | the program extends the trees it was given and keeps their operator tags |
| ArithParser.Parse | src/Parser.java:42-49 | a parse result is a list of trees whose nodes are tagged with operators |
| ArithParser.NewlineIsSkipped | src/Parser.java:52-54 | a leading newline does not change the program |
| ArithParser.ProgramStopsAtEof | src/Parser.java:56-57 | a program that succeeds stops at `<EOF>` |
| ArithParser.EofCheckIsRedundant | src/Parser.java:45-47 | the end-of-file check in `parse` never fires: `parse` succeeds exactly when `program` does, with the same trees |
| ArithGrammar.FactorRoundTrip | src/Parser.java:92-112 | parsing an emitted factor gives the tree back |
| ArithGrammar.ExprRoundTrip | src/Parser.java:66-90 | parsing an emitted expression gives the tree back |
| ArithGrammar.AdditiveIsLeftAssociative | src/Parser.java:66-77 | `a - b + c` groups as `(a - b) + c` |
| ArithGrammar.MultiplicativeIsLeftAssociative | src/Parser.java:79-90 | `a / b * c` groups as `(a / b) * c` |
| ArithGrammar.ProductBindsTighter | src/Parser.java:66-90 | `a + b * c` groups as `a + (b * c)` |
| ArithGrammar.ParenthesesAddNoNode | src/Parser.java:106-111 | parentheses yield the inner tree with no node of their own |
| ArithGrammar.NegationHasOneKid | src/Parser.java:93-99 | unary minus is an operator node with one kid |
| ArithGrammar.ProgramRoundTrip | src/Parser.java:51-64 | emitted lines of expressions followed by `<EOF>` parse back to those trees |
| ArithGrammar.ParseRoundTrip | src/Parser.java:42-64 | `parse` of an emitted program gives the list of its trees |
| ArithJson.IntText | src/Parser.java:174-176 | an integer prints as a sign or a digit first |
| ArithJson.ToJson | src/Parser.java:142-177 | a tree prints as a list, an object or a number |
| ArithJson.JsonRoundTrip | src/Parser.java:142-177 | reading the JSON of a tree whose tags hold no quote gives the tree back |
| ArithJson.ParsedJsonRoundTrip | src/Parser.java:42-49 | the JSON of any parse result reads back to that result |
| ArithJson.OperatorTagsAreReadable | src/Parser.java:69-98 | the tags the parser puts on nodes are operator characters, so they need no escaping |
| ArithExamples.LexerExample | src/Lexer.java:39-57 | `a-b-c` and a newline, for any digits a, b, c, tokenizes to three `INT` tokens, two `-` tokens, the `\n` token and `<EOF>` |
| ArithExamples.CommentExample | src/Lexer.java:24 | blanks around a digit and a `#` comment running to the end of the text leave only the digit and `<EOF>` |
| ArithExamples.CarriageReturnExample | src/Lexer.java:26 | a carriage return handed to `Lexer.tokenize` directly is a character no rule takes, so lexing fails at its offset |
| ArithExamples.SubtractionExample | src/Parser.java:66-77 | `1-2-3` on a line parses as `(1-2)-3` |
| ArithExamples.PrecedenceExample | src/Parser.java:66-90 | `1+2*3` parses as `1+(2*3)` |
| ArithExamples.DoubleNegationExample | src/Parser.java:93-99 | `--1` is a negation of a negation |
| ArithExamples.MissingOperandExample | src/Parser.java:106-107 | `1+` is a syntax error expecting `(` at `<EOF>` |
| ArithExamples.UnclosedParenthesisExample | src/Parser.java:107-109 | `(1` is a syntax error expecting `)` at `<EOF>` |
| ArithExamples.OverflowExample | src/Parser.java:101-105 | `2147483648` does not fit in `int` and fails with `BadInt` |
| ArithExamples.JsonExample | src/Parser.java:142-177 | the tree of `1-2-3` prints as the exact JSON text of a list holding two nested `-` nodes |

## Left out

- Reading standard input and printing are not modelled. This covers `sys.stdin.read()` and `print(json.dumps(..., indent=2))` (main.py:297-301), and `readStdin` and `println` (src/Main.java). `DataPipeline.Convert` returns a JSON value, not its indented text.
- Error messages and exit statuses are not modelled. Each `print` before `sys.exit(1)`, and `die`'s message on standard error, is a failure value carrying at most the offset or the expected and found token.
- `src/Main.java` appends `"\n"` to every line it reads. `BufferedReader.readLine` (src/Main.java:26) ends a line at `\r`, `\n` or `\r\n` and drops the terminator, so through `Main` a carriage return never reaches `Lexer.tokenize`. The lexer here takes the text as given, and `ArithExamples.CarriageReturnExample` is about `Lexer.tokenize` called directly.
- MatchBoolean: word boundaries are ASCII-only. Python's `\b` on a `str` pattern uses the Unicode `\w`. So after `true` or `false` followed by a non-ASCII letter such as `é`, the source fails at that offset, while the model takes the boolean and fails later.
- MatchInteger, MatchValue and DataJson.IntValue: ASCII digits only. Python's `\d` and `int()` also accept every other Unicode decimal digit. For `٣`, the source prints `{"%k": "int", "%v": 3}`, while the model reports an invalid token.
- DataJson.IntValue: Python 3.11 and later refuse `int()` of more than 4300 digits with an uncaught `ValueError` (main.py:225). The model returns the number for any length.
- DataParser.ParseLiteral: nesting depth is unbounded here. Past Python's recursion limit, the `RecursionError` is caught by the bare `except` at main.py:76-78 and the program exits with "Unexpected token error". The model parses at any depth.
- ArithParser.Expr and ArithParser.Program: recursion depth is unbounded here. In the source, `StackOverflowError` is uncaught. Deep parentheses or unary minus overflow the Java stack in `expr`, `term` and `factor`. Many top-level expressions or newline runs overflow it in `program` (src/Parser.java:51-64), which recurses once for each. The model parses at any depth and length.
- ArithLexer.Tokenize: a Java `String` can hold an unpaired surrogate, which Java's `.` takes as one character, while a Dafny `char` cannot hold one. Such input is not modelled. A surrogate pair is one code point to Java's `.`, and so one `CHAR` token, as here.
- ArithLexer.Tokenize: a line terminator other than `\n` makes `nextMatch` return `null`, and the source throws `NullPointerException`. Here this is a failure at that offset.
- ArithParser.Consume: taking a token past the end of the list throws `IndexOutOfBoundsException` in the source. Here it is the `NoToken` failure.
- ArithJson.ToJson: the operator tag is written without JSON escaping, as the source does. The round trip is stated for quote-free tags, and every tag the parser makes is one.
- `DataJson` only keeps the `KeyElement` that `main.py` defines second (main.py:234-239). The first definition (main.py:175-180) is shadowed, and the generic `as_json` methods of `Element`, `DataLiteralElement` and `PrimitiveLiteralElement` are never reached.
- A bare token or a `None` inside a key pair makes `as_json` raise `AttributeError`. This is the `NoJson` failure, not a message.
- The `EMPTY_SPACE` pattern (main.py:19) is kept in the table order, but the skip pattern always consumes blanks first. `DataLexer.ScannedTokensAreWellFormed` proves it never yields a token.
- The unused `Token.toString` (src/Lexer.java:66-69) is not modelled.
