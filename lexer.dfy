/** The hand-written scanner of analisador_lexical.py: a cursor over the
    normalised text that is advanced one character at a time. Each method is
    proved to compute the corresponding function of LexSpec. */
module LexicalAnalyzer {
  import opened Wrappers
  import opened Tokens
  import opened LexSpec

  /** A method result agrees with a scanning function: the same token and the
      cursor where the function resumes, or the same fault. */
  ghost predicate Agrees(r: Result<Token, LexError>, pos: nat, spec: Result<Scanned, LexError>) {
    match spec
    case Ok(s) => r == Ok(s.token) && pos == s.next
    case Err(e) => r == Err(e)
  }

  lemma PrependNothing(r: Result<seq<Token>, LexError>)
    ensures Prepend([], r) == r
  {
    match r
    case Ok(us) => assert [] + us == us;
    case Err(_) =>
  }

  lemma PrependTwice(a: seq<Token>, b: seq<Token>, r: Result<seq<Token>, LexError>)
    ensures Prepend(a, Prepend(b, r)) == Prepend(a + b, r)
  {
    match r
    case Ok(us) => assert a + (b + us) == (a + b) + us;
    case Err(_) =>
  }

  class Lexer {
    const text: string
    const length: nat
    var pos: nat
    var currentChar: Option<char>
    var line: nat
    var col: nat

    /** The cursor invariant: the current character is the one at `pos`
        (none past the end), and `line`/`col` are the position of `pos`. */
    ghost predicate Valid()
      reads this
    {
      '\r' !in text &&
      length == |text| &&
      pos <= |text| &&
      currentChar == CharAt(text, pos) &&
      line == LineAt(text, pos) &&
      col == ColAt(text, pos)
    }

    /** `__init__`: normalise line breaks and put the cursor on the first
        character, at line 1, column 1. */
    constructor (source: string)
      ensures Valid()
      ensures text == Normalize(source)
      ensures pos == 0 && line == 1 && col == 1
    {
      var t := Normalize(source);
      text := t;
      length := |t|;
      pos := 0;
      currentChar := if |t| > 0 then Some(t[0]) else None;
      line := 1;
      col := 1;
    }

    /** Move past the current character: a line break moves to the next line
        and restarts the column count, anything else moves one column on;
        at the end of the text the column stops counting. */
    method Advance()
      requires Valid() && currentChar.Some?
      modifies this
      ensures Valid()
      ensures pos == old(pos) + 1
      ensures old(currentChar) == Some('\n') ==>
                line == old(line) + 1 && col == (if pos < |text| then 1 else 0)
      ensures old(currentChar) != Some('\n') ==>
                line == old(line) && col == (if pos < |text| then old(col) + 1 else old(col))
    {
      ghost var p := pos;
      assert text[..p + 1][..p] == text[..p];
      assert p + 1 == |text| ==> text[..p + 1] == text;
      if currentChar == Some('\n') {
        line := line + 1;
        col := 0;
      }
      pos := pos + 1;
      if pos >= length {
        currentChar := None;
      } else {
        currentChar := Some(text[pos]);
        col := col + 1;
      }
    }

    /** The character `n` places ahead of the cursor, if any. */
    method Peek(n: nat) returns (r: Option<char>)
      requires Valid()
      ensures pos + n < |text| ==> r == Some(text[pos + n])
      ensures pos + n >= |text| ==> r == None
    {
      var peekPos := pos + n;
      if peekPos >= length {
        return None;
      }
      return Some(text[peekPos]);
    }

    /** The first character at or after the cursor that is not a blank,
        without moving the cursor. */
    method PeekNextNonWhitespace() returns (r: Option<char>)
      requires Valid()
      ensures r == NextNonBlank(text, pos)
      ensures r.Some? ==> !IsBlank(r.value)
    {
      var p := pos;
      while p < length && IsBlank(text[p])
        invariant pos <= p <= |text|
        invariant BlanksEnd(text, p) == BlanksEnd(text, pos)
      {
        p := p + 1;
      }
      if p < length {
        return Some(text[p]);
      }
      return None;
    }

    method SkipWhitespace()
      requires Valid()
      modifies this
      ensures Valid() && pos == BlanksEnd(text, old(pos))
    {
      ghost var start := pos;
      while currentChar.Some? && IsBlank(currentChar.value)
        invariant Valid() && start <= pos
        invariant BlanksEnd(text, pos) == BlanksEnd(text, start)
        decreases |text| - pos
      {
        Advance();
      }
    }

    method SkipLineComment()
      requires Valid()
      modifies this
      ensures Valid() && pos == LineCommentEnd(text, old(pos))
    {
      ghost var start := pos;
      while currentChar.Some? && currentChar.value != '\n'
        invariant Valid() && start <= pos
        invariant LineCommentEnd(text, pos) == LineCommentEnd(text, start)
        decreases |text| - pos
      {
        Advance();
      }
    }

    /** Consume the opening "/" "*" and everything up to and including the
        closing "*" "/"; if the text ends first, fail at the opening. */
    method SkipBlockComment() returns (r: Outcome<LexError>)
      requires Valid() && OpensComment(text, pos)
      modifies this
      ensures Valid()
      ensures match CommentClose(text, old(pos) + 2)
              case Some(q) => r == Pass && pos == q
              case None => r == Fail(LexError(UnterminatedBlockComment, old(line), old(col), None))
    {
      var startLine, startCol := line, col;
      Advance();
      Advance();
      while currentChar.Some?
        invariant Valid() && old(pos) + 2 <= pos
        invariant CommentClose(text, pos) == CommentClose(text, old(pos) + 2)
        decreases |text| - pos
      {
        var next := Peek(1);
        if currentChar == Some('*') && next == Some('/') {
          Advance();
          Advance();
          return Pass;
        }
        Advance();
      }
      return Fail(LexError(UnterminatedBlockComment, startLine, startCol, None));
    }

    /** The `while current_char is digit: num_str += current_char; advance()`
        loop of `number`: append the run of digits at the cursor to `numStr`. */
    method AppendDigits(numStr: string) returns (r: string)
      requires Valid()
      modifies this
      ensures Valid()
      ensures pos == DigitsEnd(text, old(pos))
      ensures r == numStr + text[old(pos)..pos]
    {
      r := numStr;
      while currentChar.Some? && IsDigit(currentChar.value)
        invariant Valid() && old(pos) <= pos
        invariant r == numStr + text[old(pos)..pos]
        invariant DigitsEnd(text, pos) == DigitsEnd(text, old(pos))
        decreases |text| - pos
      {
        r := r + [currentChar.value];
        Advance();
      }
    }

    /** `number`: a numeric constant starting at the cursor. */
    method Number() returns (r: Result<Token, LexError>)
      requires Valid()
      modifies this
      ensures Valid()
      ensures Agrees(r, pos, ScanNumber(text, old(pos)))
    {
      if currentChar == Some('.') {
        r := FractionOnly();
      } else {
        r := IntegerPart();
      }
    }

    /** The branch of `number` for a constant that starts with '.'. */
    method FractionOnly() returns (r: Result<Token, LexError>)
      requires Valid() && currentChar == Some('.')
      modifies this
      ensures Valid()
      ensures Agrees(r, pos, ScanNumber(text, old(pos)))
    {
      var startLine, startCol := line, col;
      ghost var start := pos;
      var numStr := ".";
      Advance();
      if currentChar.None? || !IsDigit(currentChar.value) {
        return Err(LexError(DotNotFollowedByDigits, startLine, startCol, Some('.')));
      }
      numStr := AppendDigits(numStr);
      assert numStr == text[start..pos];
      return Ok(Token(NUMBER, Some(numStr), startLine, startCol));
    }

    /** The branch of `number` for a constant that starts with a digit: the
        digits, then an optional fraction, then no second '.'. */
    method IntegerPart() returns (r: Result<Token, LexError>)
      requires Valid() && currentChar != Some('.')
      modifies this
      ensures Valid()
      ensures Agrees(r, pos, ScanNumber(text, old(pos)))
    {
      var startLine, startCol := line, col;
      ghost var start := pos;
      var numStr := AppendDigits("");
      assert numStr == text[start..pos];
      if currentChar == Some('.') {
        numStr := numStr + ".";
        Advance();
        if currentChar.None? || !IsDigit(currentChar.value) {
          return Err(LexError(DigitsRequiredAfterDecimalPoint, startLine, startCol, Some('.')));
        }
        assert numStr == text[start..pos];
        numStr := AppendDigits(numStr);
        assert numStr == text[start..pos];
      }
      if currentChar == Some('.') {
        return Err(LexError(MultipleDecimalPoints, line, col, Some('.')));
      }
      return Ok(Token(NUMBER, Some(numStr), startLine, startCol));
    }

    /** `identifier_or_keyword`: the longest identifier at the cursor, typed
        by the reserved-word table. */
    method IdentifierOrKeyword() returns (r: Result<Token, LexError>)
      requires Valid()
      modifies this
      ensures Valid()
      ensures Agrees(r, pos, ScanIdentifier(text, old(pos)))
    {
      var startLine, startCol := line, col;
      ghost var start := pos;
      var result := "";
      if currentChar.None? {
        return Err(LexError(UnexpectedEndInIdentifier, startLine, startCol, None));
      }
      if !IsIdentStart(currentChar.value) {
        return Err(LexError(BadIdentifierStart, startLine, startCol, currentChar));
      }
      while currentChar.Some? && IsIdentChar(currentChar.value)
        invariant Valid() && start <= pos
        invariant result == text[start..pos]
        invariant IdentEnd(text, pos) == IdentEnd(text, start)
        decreases |text| - pos
      {
        result := result + [currentChar.value];
        Advance();
      }
      var typ := KeywordType(result);
      return Ok(Token(typ, Some(result), startLine, startCol));
    }

    /** `get_next_token`: skip blanks and comments, then scan one token, or
        return the end marker at the end of the text. */
    method GetNextToken() returns (r: Result<Token, LexError>)
      requires Valid()
      modifies this
      ensures Valid()
      ensures Agrees(r, pos, NextToken(text, old(pos)))
    {
      while currentChar.Some?
        invariant Valid()
        invariant SkipTrivia(text, pos) == SkipTrivia(text, old(pos))
        decreases |text| - pos
      {
        var c := currentChar.value;
        if IsBlank(c) {
          SkipWhitespace();
          continue;
        }
        if c == '#' {
          SkipLineComment();
          continue;
        }
        var next := Peek(1);
        if c == '/' && next == Some('*') {
          var skipped := SkipBlockComment();
          if skipped.Fail? {
            return Err(skipped.error);
          }
          continue;
        }
        assert SkipTrivia(text, pos) == Ok(pos);
        r := ScanToken(c, next);
        return;
      }
      return Ok(Token(EOF, None, line, col));
    }

    /** The token dispatch of `get_next_token` at a character that starts no
        blank and no comment. */
    method ScanToken(c: char, next: Option<char>) returns (r: Result<Token, LexError>)
      requires Valid() && pos < |text| && c == text[pos] && next == CharAt(text, pos + 1)
      modifies this
      ensures Valid()
      ensures Agrees(r, pos, TokenAt(text, old(pos)))
    {
      if c == '+' || c == '-' || c == '*' || c == '/' || c == '(' || c == ')' {
        var kind := match c
          case '+' => PLUS case '-' => MINUS case '*' => MUL
          case '/' => DIV case '(' => LPAREN case _ => RPAREN;
        var t := Token(kind, Some([c]), line, col);
        Advance();
        return Ok(t);
      }
      if c == '>' || c == '<' || c == '=' {
        var startLine, startCol := line, col;
        if next == Some('=') {
          var kind := if c == '>' then GE else if c == '<' then LE else EQ;
          Advance();
          Advance();
          return Ok(Token(kind, Some([c, '=']), startLine, startCol));
        } else {
          var kind := if c == '>' then GT else if c == '<' then LT else ASSIGN;
          Advance();
          return Ok(Token(kind, Some([c]), startLine, startCol));
        }
      }
      if c == '!' {
        var startLine, startCol := line, col;
        if next == Some('=') {
          Advance();
          Advance();
          return Ok(Token(NE, Some("!="), startLine, startCol));
        } else {
          return Err(LexError(UnexpectedBang, startLine, startCol, Some('!')));
        }
      }
      if IsDigit(c) || (c == '.' && next.Some? && IsDigit(next.value)) {
        var token :- Number();
        var nextChar := PeekNextNonWhitespace();
        if nextChar == Some('.') {
          return Err(LexError(UnexpectedDotAfterNumber, token.line, token.column, Some('.')));
        }
        return Ok(token);
      }
      if IsIdentStart(c) {
        r := IdentifierOrKeyword();
        return;
      }
      if c == ':' {
        var t := Token(COLON, Some(":"), line, col);
        Advance();
        return Ok(t);
      }
      return Err(LexError(InvalidCharacter, line, col, Some(c)));
    }

    /** `tokenize`: all tokens up to and including the end marker. */
    method Tokenize() returns (r: Result<seq<Token>, LexError>)
      requires Valid()
      modifies this
      ensures Valid()
      ensures r == LexFrom(text, old(pos))
    {
      var tokens: seq<Token> := [];
      PrependNothing(LexFrom(text, pos));
      while true
        invariant Valid() && old(pos) <= pos
        invariant LexFrom(text, old(pos)) == Prepend(tokens, LexFrom(text, pos))
        decreases |text| - pos
      {
        ghost var p := pos;
        LexFromUnfold(text, p);
        var next := GetNextToken();
        if next.Err? {
          return Err(next.error);
        }
        var tok := next.value;
        tokens := tokens + [tok];
        if tok.kind == EOF {
          return Ok(tokens);
        }
        assert LexFrom(text, p) == Prepend([tok], LexFrom(text, pos));
        PrependTwice(tokens[..|tokens| - 1], [tok], LexFrom(text, pos));
        assert tokens[..|tokens| - 1] + [tok] == tokens;
      }
    }
  }
}
