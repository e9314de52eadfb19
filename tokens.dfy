/** The token vocabulary shared by the scanner and the parser. */
module Tokens {
  import opened Wrappers

  /** The closed set of token kinds, named as the scanner names them. */
  datatype TokenType =
    | INT | FLOAT
    | INICIO | DECLS | FIMDECLS | CODIGO | FIMPROG
    | LEIA | ESCREVA
    | SE | ENTAO | BLOCO | FIMBLOCO
    | E | OU
    | PRINT | WHILE | ELSE
    | IDENTIFIER | NUMBER
    | PLUS | MINUS | MUL | DIV | LPAREN | RPAREN
    | GT | GE | LT | LE | EQ | NE | ASSIGN | COLON
    | EOF

  /** A token: its kind, its lexeme (absent only for the end marker) and the
      1-based line and column of its first character. */
  datatype Token = Token(kind: TokenType, value: Option<string>, line: nat, column: nat)

  /** The name a kind carries in parse-tree labels. */
  function TypeName(t: TokenType): string {
    match t
    case INT => "INT"
    case FLOAT => "FLOAT"
    case INICIO => "INICIO"
    case DECLS => "DECLS"
    case FIMDECLS => "FIMDECLS"
    case CODIGO => "CODIGO"
    case FIMPROG => "FIMPROG"
    case LEIA => "LEIA"
    case ESCREVA => "ESCREVA"
    case SE => "SE"
    case ENTAO => "ENTAO"
    case BLOCO => "BLOCO"
    case FIMBLOCO => "FIMBLOCO"
    case E => "E"
    case OU => "OU"
    case PRINT => "PRINT"
    case WHILE => "WHILE"
    case ELSE => "ELSE"
    case IDENTIFIER => "IDENTIFIER"
    case NUMBER => "NUMBER"
    case PLUS => "PLUS"
    case MINUS => "MINUS"
    case MUL => "MUL"
    case DIV => "DIV"
    case LPAREN => "LPAREN"
    case RPAREN => "RPAREN"
    case GT => "GT"
    case GE => "GE"
    case LT => "LT"
    case LE => "LE"
    case EQ => "EQ"
    case NE => "NE"
    case ASSIGN => "ASSIGN"
    case COLON => "COLON"
    case EOF => "EOF"
  }

  /** The fixed lexeme of an operator or punctuation kind. */
  function Spelling(t: TokenType): Option<string> {
    match t
    case PLUS => Some("+")
    case MINUS => Some("-")
    case MUL => Some("*")
    case DIV => Some("/")
    case LPAREN => Some("(")
    case RPAREN => Some(")")
    case GT => Some(">")
    case GE => Some(">=")
    case LT => Some("<")
    case LE => Some("<=")
    case EQ => Some("==")
    case NE => Some("!=")
    case ASSIGN => Some("=")
    case COLON => Some(":")
    case _ => None
  }

  /** The shape of every token list the scanner returns: one end marker, at
      the end, without a lexeme; every other token has a non-empty lexeme. */
  ghost predicate WellFormed(ts: seq<Token>) {
    |ts| > 0 &&
    ts[|ts| - 1].kind == EOF && ts[|ts| - 1].value == None &&
    forall i :: 0 <= i < |ts| - 1 ==>
      ts[i].kind != EOF && ts[i].value.Some? && ts[i].value.value != ""
  }

  /** Every operator and punctuation token carries its fixed lexeme. */
  ghost predicate Spelled(ts: seq<Token>) {
    forall i :: 0 <= i < |ts| && Spelling(ts[i].kind).Some? ==> ts[i].value == Spelling(ts[i].kind)
  }
}
