/** The closed data types shared by the lexer and its callers. */
module ParseCommon {

  /** The eight token kinds. */
  datatype TokenType = And | Or | True | False | LParen | RParen | Number | Identifier

  /** The printable name of a token kind. */
  function TokenTypeRepr(t: TokenType): (name: string)
    ensures name != "unknown"
  {
    match t
    case And => "and"
    case Or => "or"
    case True => "true"
    case False => "false"
    case LParen => "lparen"
    case RParen => "rparen"
    case Number => "number"
    case Identifier => "identifier"
  }

  /** Distinct kinds have distinct names. */
  lemma TokenTypeReprInjective(a: TokenType, b: TokenType)
    ensures TokenTypeRepr(a) == TokenTypeRepr(b) ==> a == b
  {
  }

  /** A 1-based line and column. */
  datatype SourcePosition = SourcePosition(line: nat, column: nat)

  datatype SourceRange = SourceRange(start: SourcePosition, end: SourcePosition)

  /** A non-owning view of `length` characters of the source, from `offset` on. */
  datatype StringView = StringView(offset: nat, length: nat) {

    function End(): nat {
      offset + length
    }

    /** The characters of `s` the view stands for. */
    function Of(s: string): (t: string)
      requires End() <= |s|
      ensures |t| == length
      ensures forall i :: 0 <= i < length ==> t[i] == s[offset + i]
    {
      s[offset..End()]
    }
  }

  /** A classified lexeme: its kind, its text as a view of the source, and
      where it stands. */
  datatype Token = Token(kind: TokenType, literal: StringView, range: SourceRange)

  datatype ParseErrorType = Eof | UnknownToken

  datatype ParseError = ParseError(kind: ParseErrorType, range: SourceRange, cause: string)
}
