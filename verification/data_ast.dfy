/** The syntax tree the literal-data parser builds (main.py:149-255). */
module DataAst {
  import opened DataTokens

  /** A data literal. Primitive literals keep their token's text. */
  datatype Element =
    | ListLit(items: seq<Lit>)
    | TupleLit(items: seq<Lit>)
    | MapLit(pairs: seq<KeyPair>)
    | IntegerLit(text: string)
    | AtomLit(text: string)
    | KeyLit(text: string)
    | BooleanLit(text: string)
    | ValueLit(text: string)

  /** What one call of the literal parser yields: an element, Python's `None`
      (a lone `:`, `=>` or `<EOF>`), or the bare second token of a doubled
      `::`, `=>=>` or `<EOF><EOF>`. */
  datatype Lit =
    | Node(element: Element)
    | Nothing
    | Raw(token: Token)

  /** One entry of a map literal. */
  datatype KeyPair = KeyPair(key: Lit, value: Lit)

  predicate IsContainer(e: Element) {
    e.ListLit? || e.TupleLit? || e.MapLit?
  }

  /** The kind of the token a primitive literal is read from. */
  function PrimitiveKind(e: Element): (k: TokenKind)
    requires !IsContainer(e)
  {
    match e
    case IntegerLit(_) => INTEGER
    case AtomLit(_) => ATOM
    case KeyLit(_) => KEY
    case BooleanLit(_) => BOOLEAN
    case ValueLit(_) => VALUE
  }

  /** The token that opens a container. */
  function Opener(e: Element): (k: TokenKind)
    requires IsContainer(e)
  {
    match e
    case ListLit(_) => LEFT_SQUARE_BRACKET
    case TupleLit(_) => LEFT_CURLY_BRACE
    case MapLit(_) => PERCENTAGE_LEFT_CURLY_BRACE
  }

  /** The token that closes a container. */
  function Closer(e: Element): (k: TokenKind)
    requires IsContainer(e)
  {
    if e.ListLit? then RIGHT_SQUARE_BRACKET else RIGHT_CURLY_BRACE
  }
}
