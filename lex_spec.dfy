/** A functional reference definition of the scanner in analisador_lexical.py.
    Every scanning step is a function of the (normalised) text and an offset
    into it; the imperative Lexer class is proved to compute exactly these. */
module LexSpec {
  import opened Wrappers
  import opened Tokens

  // ---------------------------------------------------------------------
  // Character classes (ASCII only, as `string.ascii_letters` and the
  // comparisons '0' <= c <= '9' in the source)

  predicate IsDigit(c: char) {
    '0' <= c <= '9'
  }

  predicate IsAsciiLetter(c: char) {
    'a' <= c <= 'z' || 'A' <= c <= 'Z'
  }

  predicate IsIdentStart(c: char) {
    IsAsciiLetter(c) || c == '_'
  }

  predicate IsIdentChar(c: char) {
    IsIdentStart(c) || IsDigit(c)
  }

  /** The characters ' \t\n' that separate tokens. */
  predicate IsBlank(c: char) {
    c == ' ' || c == '\t' || c == '\n'
  }

  // ---------------------------------------------------------------------
  // Reserved words

  /** ASCII lower-casing of one character. */
  function LowerChar(c: char): (r: char)
    ensures IsDigit(c) || c == '_' ==> r == c
  {
    if 'A' <= c <= 'Z' then (c as int + 32) as char else c
  }

  /** ASCII lowercasing (`str.lower` on identifier characters): no upper-case
      letter is left, every other character is kept, and an upper-case letter
      becomes the lower-case letter at the same place in the alphabet. */
  function Lower(s: string): (r: string)
    ensures |r| == |s|
    ensures forall i :: 0 <= i < |r| ==> !('A' <= r[i] <= 'Z')
    ensures forall i :: 0 <= i < |s| && !('A' <= s[i] <= 'Z') ==> r[i] == s[i]
    ensures forall i :: 0 <= i < |s| && 'A' <= s[i] <= 'Z' ==>
              'a' <= r[i] <= 'z' && r[i] as int - 'a' as int == s[i] as int - 'A' as int
  {
    seq(|s|, i requires 0 <= i < |s| => LowerChar(s[i]))
  }

  /** The reserved-word table, keyed by lower-case spelling. */
  const RESERVED: map<string, TokenType> := map[
    "int" := INT,
    "float" := FLOAT,
    "inicio" := INICIO,
    "decls" := DECLS,
    "fimdecls" := FIMDECLS,
    "codigo" := CODIGO,
    "fimprog" := FIMPROG,
    "leia" := LEIA,
    "escreva" := ESCREVA,
    "se" := SE,
    "entao" := ENTAO,
    "bloco" := BLOCO,
    "fimbloco" := FIMBLOCO,
    "e" := E,
    "ou" := OU,
    "print" := PRINT,
    "while" := WHILE,
    "else" := ELSE
  ]

  /** The kind of an identifier-shaped lexeme: its reserved word, looked up
      case-insensitively, or IDENTIFIER. */
  function KeywordType(lexeme: string): (k: TokenType)
    ensures k == IDENTIFIER <==> Lower(lexeme) !in RESERVED
    ensures k != IDENTIFIER ==> RESERVED[Lower(lexeme)] == k
  {
    var key := Lower(lexeme);
    if key in RESERVED then RESERVED[key] else IDENTIFIER
  }

  // ---------------------------------------------------------------------
  // Line-break normalisation done by the constructor

  /** Left-to-right replacement of every "\r\n" by "\n". */
  function ReplaceCrLf(s: string): (r: string)
    ensures |r| <= |s|
  {
    if |s| >= 2 && s[0] == '\r' && s[1] == '\n' then "\n" + ReplaceCrLf(s[2..])
    else if s == [] then []
    else [s[0]] + ReplaceCrLf(s[1..])
  }

  /** Replacement of every remaining '\r' by '\n': no '\r' is left, each
      '\r' becomes '\n', and every other character is kept. */
  function ReplaceCr(s: string): (r: string)
    ensures |r| == |s|
    ensures '\r' !in r
    ensures forall i :: 0 <= i < |s| && s[i] == '\r' ==> r[i] == '\n'
    ensures forall i :: 0 <= i < |s| && s[i] != '\r' ==> r[i] == s[i]
  {
    seq(|s|, i requires 0 <= i < |s| => if s[i] == '\r' then '\n' else s[i])
  }

  function Normalize(source: string): (text: string)
    ensures '\r' !in text
    ensures |text| <= |source|
  {
    ReplaceCr(ReplaceCrLf(source))
  }

  // ---------------------------------------------------------------------
  // Positions

  /** The number of line breaks in `s`. */
  function Newlines(s: string): (n: nat)
    ensures n <= |s|
  {
    if s == [] then 0
    else Newlines(s[..|s| - 1]) + (if s[|s| - 1] == '\n' then 1 else 0)
  }

  /** The number of characters of `s` after its last line break. */
  function Column(s: string): (n: nat)
    ensures n <= |s|
  {
    if s == [] then 0
    else if s[|s| - 1] == '\n' then 0
    else Column(s[..|s| - 1]) + 1
  }

  /** The line the cursor reports at offset `p`. */
  function LineAt(text: string, p: nat): (line: nat)
    requires p <= |text|
    ensures 1 <= line <= p + 1
  {
    1 + Newlines(text[..p])
  }

  /** The column the cursor reports at offset `p`. At the end of a non-empty
      text the column is that of the last character, or 0 after a final
      line break, because the source stops counting once it runs out. */
  function ColAt(text: string, p: nat): (col: nat)
    requires p <= |text|
    ensures p < |text| || text == [] ==> 1 <= col
    ensures col <= p + 1
  {
    if p < |text| then Column(text[..p]) + 1
    else if text == [] then 1
    else Column(text)
  }

  function CharAt(text: string, p: nat): Option<char> {
    if p < |text| then Some(text[p]) else None
  }

  predicate DigitAt(text: string, p: nat) {
    p < |text| && IsDigit(text[p])
  }

  // ---------------------------------------------------------------------
  // Runs of characters

  /** The end of the run of blanks starting at `p`. */
  function BlanksEnd(text: string, p: nat): (q: nat)
    requires p <= |text|
    ensures p <= q <= |text|
    ensures forall i :: p <= i < q ==> IsBlank(text[i])
    ensures q < |text| ==> !IsBlank(text[q])
    decreases |text| - p
  {
    if p < |text| && IsBlank(text[p]) then BlanksEnd(text, p + 1) else p
  }

  /** The first character at or after `p` that is not a blank. */
  function NextNonBlank(text: string, p: nat): (r: Option<char>)
    requires p <= |text|
    ensures r.Some? ==> !IsBlank(r.value)
    ensures r.None? <==> forall i :: p <= i < |text| ==> IsBlank(text[i])
  {
    CharAt(text, BlanksEnd(text, p))
  }

  /** The end of a line comment: the next line break, or the end of text. */
  function LineCommentEnd(text: string, p: nat): (q: nat)
    requires p <= |text|
    ensures p <= q <= |text|
    ensures forall i :: p <= i < q ==> text[i] != '\n'
    ensures q < |text| ==> text[q] == '\n'
    decreases |text| - p
  {
    if p < |text| && text[p] != '\n' then LineCommentEnd(text, p + 1) else p
  }

  predicate OpensComment(text: string, p: nat) {
    p + 1 < |text| && text[p] == '/' && text[p + 1] == '*'
  }

  predicate ClosesComment(text: string, p: nat) {
    p + 1 < |text| && text[p] == '*' && text[p + 1] == '/'
  }

  /** The offset just past the first "*" "/" pair starting at or after `q`,
      if there is one. */
  function CommentClose(text: string, q: nat): (r: Option<nat>)
    requires q <= |text|
    ensures r.Some? ==> q + 2 <= r.value <= |text| && ClosesComment(text, r.value - 2)
    ensures r.Some? ==> forall i :: q <= i < r.value - 2 ==> !ClosesComment(text, i)
    ensures r.None? ==> forall i :: q <= i < |text| ==> !ClosesComment(text, i)
    decreases |text| - q
  {
    if q >= |text| then None
    else if ClosesComment(text, q) then Some(q + 2)
    else CommentClose(text, q + 1)
  }

  /** The end of the run of digits starting at `p`. */
  function DigitsEnd(text: string, p: nat): (q: nat)
    requires p <= |text|
    ensures p <= q <= |text|
    ensures forall i :: p <= i < q ==> IsDigit(text[i])
    ensures q < |text| ==> !IsDigit(text[q])
    decreases |text| - p
  {
    if p < |text| && IsDigit(text[p]) then DigitsEnd(text, p + 1) else p
  }

  /** The end of the run of identifier characters starting at `p`. */
  function IdentEnd(text: string, p: nat): (q: nat)
    requires p <= |text|
    ensures p <= q <= |text|
    ensures forall i :: p <= i < q ==> IsIdentChar(text[i])
    ensures q < |text| ==> !IsIdentChar(text[q])
    decreases |text| - p
  {
    if p < |text| && IsIdentChar(text[p]) then IdentEnd(text, p + 1) else p
  }

  // ---------------------------------------------------------------------
  // Faults and scan results

  /** The message of a lexical fault, one per `error` call of the source. */
  datatype LexMessage =
    | UnterminatedBlockComment
    | DotNotFollowedByDigits
    | DigitsRequiredAfterDecimalPoint
    | MultipleDecimalPoints
    | UnexpectedEndInIdentifier
    | BadIdentifierStart
    | UnexpectedBang
    | UnexpectedDotAfterNumber
    | InvalidCharacter

  /** A lexical fault: message, line, column and the offending character. */
  datatype LexError = LexError(message: LexMessage, line: nat, column: nat, ch: Option<char>)

  /** A scanned token with the offsets where its lexeme starts and where
      scanning resumes. */
  datatype Scanned = Scanned(token: Token, start: nat, next: nat)

  /** `tok` carries exactly the lexeme text[start..next] and the position of
      its first character. */
  ghost predicate LexemeAt(text: string, tok: Token, start: nat, next: nat) {
    start < next <= |text| &&
    tok.value == Some(text[start..next]) &&
    tok.line == LineAt(text, start) && tok.column == ColAt(text, start)
  }

  /** The lexeme grammar digit* '.' digit+ | digit+ of numeric constants. */
  ghost predicate IsNumeral(s: string) {
    (|s| > 0 && forall k :: 0 <= k < |s| ==> IsDigit(s[k])) ||
    (exists i :: 0 <= i < |s| - 1 && s[i] == '.' &&
       (forall k :: 0 <= k < i ==> IsDigit(s[k])) &&
       (forall k :: i < k < |s| ==> IsDigit(s[k])))
  }

  /** The lexeme grammar (letter | '_') (letter | digit | '_')* of identifiers. */
  ghost predicate IsIdentifier(s: string) {
    |s| > 0 && IsIdentStart(s[0]) && forall k :: 0 <= k < |s| ==> IsIdentChar(s[k])
  }

  // ---------------------------------------------------------------------
  // Scanning

  /** The numeric constant starting at `p` (`number`). */
  function ScanNumber(text: string, p: nat): (r: Result<Scanned, LexError>)
    requires p <= |text|
    ensures r.Ok? ==> r.value.start == p <= r.value.next <= |text|
    ensures r.Ok? ==> r.value.token == Token(NUMBER, Some(text[p..r.value.next]), LineAt(text, p), ColAt(text, p))
  {
    var line, col := LineAt(text, p), ColAt(text, p);
    if CharAt(text, p) == Some('.') then
      if !DigitAt(text, p + 1) then
        Err(LexError(DotNotFollowedByDigits, line, col, Some('.')))
      else
        var q := DigitsEnd(text, p + 1);
        Ok(Scanned(Token(NUMBER, Some(text[p..q]), line, col), p, q))
    else
      var q := DigitsEnd(text, p);
      if CharAt(text, q) == Some('.') then
        if !DigitAt(text, q + 1) then
          Err(LexError(DigitsRequiredAfterDecimalPoint, line, col, Some('.')))
        else
          var q' := DigitsEnd(text, q + 1);
          if CharAt(text, q') == Some('.') then
            Err(LexError(MultipleDecimalPoints, LineAt(text, q'), ColAt(text, q'), Some('.')))
          else
            Ok(Scanned(Token(NUMBER, Some(text[p..q']), line, col), p, q'))
      else
        Ok(Scanned(Token(NUMBER, Some(text[p..q]), line, col), p, q))
  }

  /** The identifier or reserved word starting at `p` (`identifier_or_keyword`). */
  function ScanIdentifier(text: string, p: nat): (r: Result<Scanned, LexError>)
    requires p <= |text|
    ensures r.Ok? <==> p < |text| && IsIdentStart(text[p])
    ensures r.Ok? ==> LexemeAt(text, r.value.token, p, r.value.next) && r.value.start == p
    ensures r.Ok? ==> IsIdentifier(text[p..r.value.next])
    ensures r.Ok? ==> r.value.token.kind == KeywordType(text[p..r.value.next])
    ensures r.Ok? ==> r.value.next == |text| || !IsIdentChar(text[r.value.next])
  {
    var line, col := LineAt(text, p), ColAt(text, p);
    if p >= |text| then
      Err(LexError(UnexpectedEndInIdentifier, line, col, None))
    else if !IsIdentStart(text[p]) then
      Err(LexError(BadIdentifierStart, line, col, Some(text[p])))
    else
      var q := IdentEnd(text, p);
      var lexeme := text[p..q];
      assert IsIdentifier(lexeme) by {
        forall k | 0 <= k < |lexeme| ensures IsIdentChar(lexeme[k]) {
          assert lexeme[k] == text[p + k];
        }
      }
      Ok(Scanned(Token(KeywordType(lexeme), Some(lexeme), line, col), p, q))
  }

  /** One token of one or two characters. */
  function Fixed(text: string, p: nat, kind: TokenType, lexeme: string): Result<Scanned, LexError>
    requires p + |lexeme| <= |text|
  {
    Ok(Scanned(Token(kind, Some(lexeme), LineAt(text, p), ColAt(text, p)), p, p + |lexeme|))
  }

  /** The token whose first character is at `p`, once no blank or comment
      starts there (the dispatch of `get_next_token`). */
  function TokenAt(text: string, p: nat): (r: Result<Scanned, LexError>)
    requires p < |text|
    ensures r.Ok? ==> r.value.start == p && LexemeAt(text, r.value.token, p, r.value.next)
    ensures r.Ok? ==> r.value.token.kind != EOF
  {
    var c := text[p];
    var line, col := LineAt(text, p), ColAt(text, p);
    var twoChar := CharAt(text, p + 1) == Some('=');
    assert text[p..p + 1] == [c];
    assert twoChar ==> text[p..p + 2] == [c, '='];
    if c == '+' then Fixed(text, p, PLUS, "+")
    else if c == '-' then Fixed(text, p, MINUS, "-")
    else if c == '*' then Fixed(text, p, MUL, "*")
    else if c == '/' then Fixed(text, p, DIV, "/")
    else if c == '(' then Fixed(text, p, LPAREN, "(")
    else if c == ')' then Fixed(text, p, RPAREN, ")")
    else if c == '>' then
      if twoChar then Fixed(text, p, GE, ">=") else Fixed(text, p, GT, ">")
    else if c == '<' then
      if twoChar then Fixed(text, p, LE, "<=") else Fixed(text, p, LT, "<")
    else if c == '!' then
      if twoChar then Fixed(text, p, NE, "!=")
      else Err(LexError(UnexpectedBang, line, col, Some('!')))
    else if c == '=' then
      if twoChar then Fixed(text, p, EQ, "==") else Fixed(text, p, ASSIGN, "=")
    else if IsDigit(c) || (c == '.' && DigitAt(text, p + 1)) then
      var s :- ScanNumber(text, p);
      if NextNonBlank(text, s.next) == Some('.') then
        Err(LexError(UnexpectedDotAfterNumber, s.token.line, s.token.column, Some('.')))
      else Ok(s)
    else if IsIdentStart(c) then ScanIdentifier(text, p)
    else if c == ':' then Fixed(text, p, COLON, ":")
    else Err(LexError(InvalidCharacter, line, col, Some(c)))
  }

  /** The offset of the next token after blanks and comments, or the fault of
      an unterminated block comment (the skipping part of `get_next_token`). */
  function SkipTrivia(text: string, p: nat): (r: Result<nat, LexError>)
    requires p <= |text|
    ensures r.Ok? ==> p <= r.value <= |text|
    ensures r.Ok? && r.value < |text| ==>
              !IsBlank(text[r.value]) && text[r.value] != '#' && !OpensComment(text, r.value)
    decreases |text| - p
  {
    if p >= |text| then Ok(p)
    else if IsBlank(text[p]) then SkipTrivia(text, BlanksEnd(text, p))
    else if text[p] == '#' then SkipTrivia(text, LineCommentEnd(text, p))
    else if OpensComment(text, p) then
      match CommentClose(text, p + 2)
      case None => Err(LexError(UnterminatedBlockComment, LineAt(text, p), ColAt(text, p), None))
      case Some(q) => SkipTrivia(text, q)
    else Ok(p)
  }

  /** The next token at or after `p` (`get_next_token`): the end marker once
      only blanks and comments remain. */
  function NextToken(text: string, p: nat): (r: Result<Scanned, LexError>)
    requires p <= |text|
    ensures r.Ok? ==> p <= r.value.start <= r.value.next <= |text|
    ensures r.Ok? && r.value.token.kind == EOF ==>
              r.value.start == r.value.next == |text| &&
              r.value.token == Token(EOF, None, LineAt(text, |text|), ColAt(text, |text|))
    ensures r.Ok? && r.value.token.kind != EOF ==>
              LexemeAt(text, r.value.token, r.value.start, r.value.next)
  {
    var q :- SkipTrivia(text, p);
    if q >= |text| then Ok(Scanned(Token(EOF, None, LineAt(text, q), ColAt(text, q)), q, q))
    else TokenAt(text, q)
  }

  /** The tokens from offset `p` to the end marker (`tokenize`). */
  function LexFrom(text: string, p: nat): (r: Result<seq<Token>, LexError>)
    requires p <= |text|
    ensures r.Ok? ==> |r.value| >= 1
    decreases |text| - p
  {
    var s :- NextToken(text, p);
    if s.token.kind == EOF then Ok([s.token])
    else
      var rest :- LexFrom(text, s.next);
      Ok([s.token] + rest)
  }

  /** One step of `tokenize`. */
  lemma LexFromUnfold(text: string, p: nat)
    requires p <= |text|
    ensures NextToken(text, p).Err? ==> LexFrom(text, p) == Err(NextToken(text, p).error)
    ensures NextToken(text, p).Ok? && NextToken(text, p).value.token.kind == EOF ==>
              LexFrom(text, p) == Ok([NextToken(text, p).value.token])
    ensures NextToken(text, p).Ok? && NextToken(text, p).value.token.kind != EOF ==>
              p < NextToken(text, p).value.next &&
              LexFrom(text, p) == Prepend([NextToken(text, p).value.token], LexFrom(text, NextToken(text, p).value.next))
  {
  }

  /** The whole scanner: normalise line breaks, then tokenize from the start. */
  function Lex(source: string): (r: Result<seq<Token>, LexError>)
    ensures r.Ok? ==> |r.value| >= 1
  {
    LexFrom(Normalize(source), 0)
  }

  /** `ts` followed by the tokens of `r`, or the fault of `r`. */
  function Prepend(ts: seq<Token>, r: Result<seq<Token>, LexError>): Result<seq<Token>, LexError> {
    match r
    case Ok(us) => Ok(ts + us)
    case Err(e) => Err(e)
  }
}
