/** Properties of the reference scanner LexSpec: the cursor bookkeeping, the
    shape of the token list, and what each token class accepts and rejects. */
module LexProps {
  import opened Wrappers
  import opened Tokens
  import opened LexSpec

  // ---------------------------------------------------------------------
  // Cursor bookkeeping

  /** `Column(s)` is the number of characters since the last line break. */
  lemma {:induction false} ColumnSinceLastBreak(s: string)
    ensures forall k :: |s| - Column(s) <= k < |s| ==> s[k] != '\n'
    ensures Column(s) < |s| ==> s[|s| - Column(s) - 1] == '\n'
  {
    if s != [] && s[|s| - 1] != '\n' {
      var t := s[..|s| - 1];
      ColumnSinceLastBreak(t);
      forall k | |s| - Column(s) <= k < |s| ensures s[k] != '\n' {
        if k < |s| - 1 {
          assert s[k] == t[k];
        }
      }
      if Column(s) < |s| {
        assert s[|s| - Column(s) - 1] == t[|t| - Column(t) - 1];
      }
    }
  }

  /** `Newlines(s)` is the number of line breaks in `s`. */
  lemma {:induction false} NewlinesCountsBreaks(s: string)
    ensures Newlines(s) == multiset(s)['\n']
  {
    if s != [] {
      var t := s[..|s| - 1];
      NewlinesCountsBreaks(t);
      assert s == t + [s[|s| - 1]];
      assert multiset(s) == multiset(t) + multiset{s[|s| - 1]};
    }
  }

  /** The reported position of a character: its line is one more than the
      number of line breaks before it, and its column is one more than the
      number of characters between it and the last line break before it. */
  lemma PositionOfCharacter(text: string, p: nat)
    requires p < |text|
    ensures LineAt(text, p) == 1 + multiset(text[..p])['\n']
    ensures ColAt(text, p) >= 1
    ensures forall k :: p - ColAt(text, p) < k < p ==> text[k] != '\n'
    ensures ColAt(text, p) <= p ==> text[p - ColAt(text, p)] == '\n'
  {
    var s := text[..p];
    ColumnSinceLastBreak(s);
    NewlinesCountsBreaks(s);
    forall k | p - ColAt(text, p) < k < p ensures text[k] != '\n' {
      assert text[k] == s[k];
    }
    if ColAt(text, p) <= p {
      assert text[p - ColAt(text, p)] == s[|s| - Column(s) - 1];
    }
  }

  lemma {:induction false} NoBreaks(s: string)
    requires '\n' !in s
    ensures Newlines(s) == 0 && Column(s) == |s|
  {
    if s != [] {
      var u := s[..|s| - 1];
      assert s[|s| - 1] != '\n';
      assert '\n' !in u by {
        forall k | 0 <= k < |u| ensures u[k] != '\n' {
          assert u[k] == s[k];
        }
      }
      NoBreaks(u);
    }
  }

  /** On a text without line breaks every offset is on line 1 and the
      column is the offset plus one. */
  lemma SingleLine(text: string, p: nat)
    requires p <= |text| && '\n' !in text
    ensures LineAt(text, p) == 1
    ensures ColAt(text, p) == if p < |text| then p + 1 else if text == [] then 1 else |text|
  {
    var u := text[..p];
    assert '\n' !in u by {
      forall k | 0 <= k < |u| ensures u[k] != '\n' {
        assert u[k] == text[k];
      }
    }
    NoBreaks(u);
    NoBreaks(text);
  }

  /** `(l1, c1)` is not after `(l2, c2)`. */
  predicate PosLe(l1: nat, c1: nat, l2: nat, c2: nat) {
    l1 < l2 || (l1 == l2 && c1 <= c2)
  }

  lemma PositionStep(text: string, b: nat)
    requires 0 < b <= |text|
    ensures PosLe(LineAt(text, b - 1), ColAt(text, b - 1), LineAt(text, b), ColAt(text, b))
  {
    assert text[..b][..b - 1] == text[..b - 1];
    if b == |text| {
      assert text[..b] == text;
    }
  }

  /** Reported positions never go backwards as the offset grows. */
  lemma {:induction false} PositionsMonotone(text: string, a: nat, b: nat)
    requires a <= b <= |text|
    ensures PosLe(LineAt(text, a), ColAt(text, a), LineAt(text, b), ColAt(text, b))
    decreases b - a
  {
    if a < b {
      PositionsMonotone(text, a, b - 1);
      PositionStep(text, b);
    }
  }

  // ---------------------------------------------------------------------
  // Line-break normalisation

  lemma {:induction false} ReplaceCrLfWithoutCr(s: string)
    requires '\r' !in s
    ensures ReplaceCrLf(s) == s
  {
    if s != [] {
      assert s[0] != '\r';
      assert '\r' !in s[1..] by {
        forall k | 0 <= k < |s[1..]| ensures s[1..][k] != '\r' {
          assert s[1..][k] == s[k + 1];
        }
      }
      ReplaceCrLfWithoutCr(s[1..]);
      assert [s[0]] + s[1..] == s;
    }
  }

  /** No "\r\n" pair occurs in `s`. */
  ghost predicate NoCrLf(s: string) {
    forall i :: 0 <= i < |s| - 1 ==> !(s[i] == '\r' && s[i + 1] == '\n')
  }

  /** Each "\r\n" becomes exactly one "\n", wherever it occurs: a pair can
      never be split at the join, because the left part is scanned the same
      way whether or not the pair follows it. */
  lemma {:induction false} ReplaceCrLfAtPair(a: string, b: string)
    ensures ReplaceCrLf(a + "\r\n" + b) == ReplaceCrLf(a) + "\n" + ReplaceCrLf(b)
    decreases |a|
  {
    if a == [] {
      NothingAhead(b);
    } else if |a| >= 2 && a[0] == '\r' && a[1] == '\n' {
      ReplaceCrLfAtPair(a[2..], b);
      PairAhead(a, b);
      PrefixJoin("\n", ReplaceCrLf(a + "\r\n" + b), ReplaceCrLf(a[2..] + "\r\n" + b),
        ReplaceCrLf(a), ReplaceCrLf(a[2..]), ReplaceCrLf(b));
    } else {
      ReplaceCrLfAtPair(a[1..], b);
      OtherAhead(a, b);
      PrefixJoin([a[0]], ReplaceCrLf(a + "\r\n" + b), ReplaceCrLf(a[1..] + "\r\n" + b),
        ReplaceCrLf(a), ReplaceCrLf(a[1..]), ReplaceCrLf(b));
    }
  }

  /** Unfolding for an empty left part. */
  lemma NothingAhead(b: string)
    ensures ReplaceCrLf([] + "\r\n" + b) == ReplaceCrLf([]) + "\n" + ReplaceCrLf(b)
  {
    var s := [] + "\r\n" + b;
    assert s[0] == '\r' && s[1] == '\n';
    assert s[2..] == b;
  }

  /** Unfolding for a left part that starts with a pair itself. */
  lemma PairAhead(a: string, b: string)
    requires |a| >= 2 && a[0] == '\r' && a[1] == '\n'
    ensures ReplaceCrLf(a + "\r\n" + b) == "\n" + ReplaceCrLf(a[2..] + "\r\n" + b)
    ensures ReplaceCrLf(a) == "\n" + ReplaceCrLf(a[2..])
  {
    var s := a + "\r\n" + b;
    assert s[0] == '\r' && s[1] == '\n';
    assert s[2..] == a[2..] + "\r\n" + b;
  }

  /** Unfolding for a non-empty left part that does not start with a pair. */
  lemma OtherAhead(a: string, b: string)
    requires a != [] && !(|a| >= 2 && a[0] == '\r' && a[1] == '\n')
    ensures ReplaceCrLf(a + "\r\n" + b) == [a[0]] + ReplaceCrLf(a[1..] + "\r\n" + b)
    ensures ReplaceCrLf(a) == [a[0]] + ReplaceCrLf(a[1..])
  {
    var s := a + "\r\n" + b;
    assert s[0] == a[0];
    assert !(|s| >= 2 && s[0] == '\r' && s[1] == '\n') by {
      if |a| == 1 { assert s[1] == '\r'; } else { assert s[1] == a[1]; }
    }
    assert s[1..] == a[1..] + "\r\n" + b;
  }

  /** The same prefix in front of both sides of a join keeps it a join. */
  lemma PrefixJoin(c: string, whole: string, rest: string, left: string, x: string, y: string)
    requires whole == c + rest && rest == x + "\n" + y && left == c + x
    ensures whole == left + "\n" + y
  {
  }

  /** A text without any "\r\n" pair is kept as it is, lone '\r' included. */
  lemma {:induction false} ReplaceCrLfWithoutPair(s: string)
    requires NoCrLf(s)
    ensures ReplaceCrLf(s) == s
  {
    if s != [] {
      assert NoCrLf(s[1..]) by {
        forall i | 0 <= i < |s[1..]| - 1 ensures !(s[1..][i] == '\r' && s[1..][i + 1] == '\n') {
          assert s[1..][i] == s[i + 1] && s[1..][i + 1] == s[i + 2];
        }
      }
      ReplaceCrLfWithoutPair(s[1..]);
      assert !(|s| >= 2 && s[0] == '\r' && s[1] == '\n');
      assert [s[0]] + s[1..] == s;
    }
  }

  /** The same for the whole normalisation: a "\r\n" becomes a single
      line break and the two sides are normalised on their own. */
  lemma NormalizeAtPair(a: string, b: string)
    ensures Normalize(a + "\r\n" + b) == Normalize(a) + "\n" + Normalize(b)
  {
    ReplaceCrLfAtPair(a, b);
    var x, y := ReplaceCrLf(a), ReplaceCrLf(b);
    ReplaceCrJoin(x, y);
  }

  lemma ReplaceCrJoin(x: string, y: string)
    ensures ReplaceCr(x + "\n" + y) == ReplaceCr(x) + "\n" + ReplaceCr(y)
  {
    var l, r := ReplaceCr(x + "\n" + y), ReplaceCr(x) + "\n" + ReplaceCr(y);
    assert |l| == |r|;
    forall i | 0 <= i < |l| ensures l[i] == r[i] {
      if i < |x| {
        assert (x + "\n" + y)[i] == x[i];
      } else if i == |x| {
        assert (x + "\n" + y)[i] == '\n';
      } else {
        assert (x + "\n" + y)[i] == y[i - |x| - 1];
      }
    }
  }

  /** Normalisation leaves a text without carriage returns unchanged, so
      normalising twice is normalising once. */
  lemma NormalizeFixesCleanText(s: string)
    requires '\r' !in s
    ensures Normalize(s) == s
    ensures Normalize(Normalize(s)) == Normalize(s)
  {
    ReplaceCrLfWithoutCr(s);
    assert ReplaceCr(s) == s;
  }

  /** On a text without carriage returns the scanner is `tokenize` from the
      first character. */
  lemma LexCleanText(s: string)
    requires '\r' !in s
    ensures Lex(s) == LexFrom(s, 0)
  {
    NormalizeFixesCleanText(s);
  }

  lemma NormalizeIdempotent(s: string)
    ensures Normalize(Normalize(s)) == Normalize(s)
  {
    NormalizeFixesCleanText(Normalize(s));
  }

  // ---------------------------------------------------------------------
  // Runs

  /** A run of digits that stops at `q` ends at `q`. */
  lemma {:induction false} DigitsEndAt(text: string, p: nat, q: nat)
    requires p <= q <= |text|
    requires forall i :: p <= i < q ==> IsDigit(text[i])
    requires q < |text| ==> !IsDigit(text[q])
    ensures DigitsEnd(text, p) == q
    decreases q - p
  {
    if p < q {
      DigitsEndAt(text, p + 1, q);
    }
  }

  /** A run of identifier characters that stops at `q` ends at `q`. */
  lemma {:induction false} IdentEndAt(text: string, p: nat, q: nat)
    requires p <= q <= |text|
    requires forall i :: p <= i < q ==> IsIdentChar(text[i])
    requires q < |text| ==> !IsIdentChar(text[q])
    ensures IdentEnd(text, p) == q
    decreases q - p
  {
    if p < q {
      IdentEndAt(text, p + 1, q);
    }
  }

  // ---------------------------------------------------------------------
  // Numeric constants

  /** What `number` accepts: a numeral of the grammar digit+ ('.' digit+)? or
      '.' digit+, followed by no digit, and by no '.' unless it began with one. */
  lemma ScanNumberShape(text: string, p: nat)
    requires p <= |text|
    requires DigitAt(text, p) || CharAt(text, p) == Some('.')
    requires ScanNumber(text, p).Ok?
    ensures var q := ScanNumber(text, p).value.next;
      p < q && IsNumeral(text[p..q]) && !DigitAt(text, q) &&
      (CharAt(text, p) != Some('.') ==> CharAt(text, q) != Some('.'))
  {
    var q := ScanNumber(text, p).value.next;
    var s := text[p..q];
    if CharAt(text, p) == Some('.') {
      assert s[0] == '.';
      forall k | 0 < k < |s| ensures IsDigit(s[k]) {
        assert s[k] == text[p + k];
      }
    } else {
      var d := DigitsEnd(text, p);
      if CharAt(text, d) == Some('.') {
        assert s[d - p] == '.';
        forall k | 0 <= k < d - p ensures IsDigit(s[k]) {
          assert s[k] == text[p + k];
        }
        forall k | d - p < k < |s| ensures IsDigit(s[k]) {
          assert s[k] == text[p + k];
        }
      } else {
        forall k | 0 <= k < |s| ensures IsDigit(s[k]) {
          assert s[k] == text[p + k];
        }
      }
    }
  }

  /** Every character of `text[a..b]` is a digit. */
  ghost predicate DigitsOn(text: string, a: nat, b: nat)
    requires a <= b <= |text|
  {
    forall i :: a <= i < b ==> IsDigit(text[i])
  }

  /** The converse of `ScanNumberShape` for an integer: a digit run that is
      followed by neither a digit nor '.' is accepted as one constant. */
  lemma IntegerAccepted(text: string, p: nat, q: nat)
    requires p < q <= |text| && DigitsOn(text, p, q)
    requires q < |text| ==> !IsDigit(text[q]) && text[q] != '.'
    ensures ScanNumber(text, p) ==
      Ok(Scanned(Token(NUMBER, Some(text[p..q]), LineAt(text, p), ColAt(text, p)), p, q))
  {
    DigitsEndAt(text, p, q);
  }

  /** The converse for a constant with both parts: digits, one '.', digits,
      followed by neither a digit nor a second '.'. */
  lemma FractionAccepted(text: string, p: nat, d: nat, q: nat)
    requires p <= d && d + 1 < q <= |text|
    requires DigitsOn(text, p, d) && text[d] == '.' && DigitsOn(text, d + 1, q)
    requires q < |text| ==> !IsDigit(text[q]) && text[q] != '.'
    ensures ScanNumber(text, p) ==
      Ok(Scanned(Token(NUMBER, Some(text[p..q]), LineAt(text, p), ColAt(text, p)), p, q))
  {
    if p < d {
      DigitsEndAt(text, p, d);
    }
    DigitsEndAt(text, d + 1, q);
  }

  /** The converse for a constant that starts with '.': the point and its
      digit run are accepted, whatever follows the digits. */
  lemma LeadingDotAccepted(text: string, p: nat, q: nat)
    requires p + 1 < q <= |text|
    requires text[p] == '.' && DigitsOn(text, p + 1, q)
    requires q < |text| ==> !IsDigit(text[q])
    ensures ScanNumber(text, p) ==
      Ok(Scanned(Token(NUMBER, Some(text[p..q]), LineAt(text, p), ColAt(text, p)), p, q))
  {
    DigitsEndAt(text, p + 1, q);
  }

  /** "1." is rejected: a decimal point must be followed by a digit, and the
      fault is reported at the start of the constant with the character '.'. */
  lemma TrailingDotRejected(text: string, p: nat, q: nat)
    requires p < q < |text|
    requires forall i :: p <= i < q ==> IsDigit(text[i])
    requires text[q] == '.' && !DigitAt(text, q + 1)
    ensures ScanNumber(text, p) ==
            Err(LexError(DigitsRequiredAfterDecimalPoint, LineAt(text, p), ColAt(text, p), Some('.')))
    ensures TokenAt(text, p) == ScanNumber(text, p)
  {
    DigitsEndAt(text, p, q);
  }

  /** "1.2.3" is rejected at the second '.', the cursor position, not at the
      start of the constant. */
  lemma SecondDotRejected(text: string, p: nat, q: nat, r: nat)
    requires p < q && q + 1 < r < |text|
    requires forall i :: p <= i < q ==> IsDigit(text[i])
    requires text[q] == '.'
    requires forall i :: q < i < r ==> IsDigit(text[i])
    requires text[r] == '.'
    ensures ScanNumber(text, p) ==
            Err(LexError(MultipleDecimalPoints, LineAt(text, r), ColAt(text, r), Some('.')))
    ensures TokenAt(text, p) == ScanNumber(text, p)
  {
    DigitsEndAt(text, p, q);
    DigitsEndAt(text, q + 1, r);
  }

  /** A '.' after a complete constant, with only blanks between them, is a
      fault at the start of the constant: "1 .5" and ".5.3" are rejected. */
  lemma DotAfterNumberRejected(text: string, p: nat)
    requires p < |text|
    requires IsDigit(text[p]) || (text[p] == '.' && DigitAt(text, p + 1))
    requires ScanNumber(text, p).Ok?
    requires NextNonBlank(text, ScanNumber(text, p).value.next) == Some('.')
    ensures TokenAt(text, p) ==
            Err(LexError(UnexpectedDotAfterNumber, LineAt(text, p), ColAt(text, p), Some('.')))
  {
  }

  // ---------------------------------------------------------------------
  // Identifiers and reserved words

  /** What `identifier_or_keyword` accepts: the longest identifier at `p`,
      typed by a case-insensitive reserved-word lookup, with its own case. */
  lemma ScanIdentifierShape(text: string, p: nat)
    requires p <= |text| && ScanIdentifier(text, p).Ok?
    ensures var s := ScanIdentifier(text, p).value;
      IsIdentifier(text[p..s.next]) &&
      (s.next == |text| || !IsIdentChar(text[s.next])) &&
      s.token.kind == KeywordType(text[p..s.next]) &&
      s.token.value == Some(text[p..s.next])
  {
    var q := IdentEnd(text, p);
    var s := text[p..q];
    forall k | 0 <= k < |s| ensures IsIdentChar(s[k]) {
      assert s[k] == text[p + k];
    }
  }

  lemma LowerTwice(w: string)
    ensures Lower(Lower(w)) == Lower(w)
  {
    assert forall i :: 0 <= i < |w| ==> LowerChar(LowerChar(w[i])) == LowerChar(w[i]);
  }

  /** Reserved words are recognised whatever their case. */
  lemma KeywordIgnoresCase(w: string)
    ensures KeywordType(w) == KeywordType(Lower(w))
  {
    LowerTwice(w);
  }

  /** A reserved-word lookup yields a reserved word's kind or IDENTIFIER. */
  lemma KeywordKinds(w: string)
    ensures KeywordType(w) !in {NUMBER, EOF, PLUS, MINUS, MUL, DIV, LPAREN, RPAREN,
                                GT, GE, LT, LE, EQ, NE, ASSIGN, COLON}
    ensures Spelling(KeywordType(w)).None?
  {
  }

  // ---------------------------------------------------------------------
  // Operators, comments, invalid characters

  /** One character of lookahead decides the relational family: '>' '<' '='
      take a following '=' into GE, LE, EQ; '!' must be followed by '='. */
  lemma RelationalOperators(text: string, p: nat)
    requires p < |text|
    ensures var two := CharAt(text, p + 1) == Some('=');
      var L, C := LineAt(text, p), ColAt(text, p);
      (text[p] == '>' ==> TokenAt(text, p) == Ok(if two then Scanned(Token(GE, Some(">="), L, C), p, p + 2)
                                                    else Scanned(Token(GT, Some(">"), L, C), p, p + 1))) &&
      (text[p] == '<' ==> TokenAt(text, p) == Ok(if two then Scanned(Token(LE, Some("<="), L, C), p, p + 2)
                                                    else Scanned(Token(LT, Some("<"), L, C), p, p + 1))) &&
      (text[p] == '=' ==> TokenAt(text, p) == Ok(if two then Scanned(Token(EQ, Some("=="), L, C), p, p + 2)
                                                    else Scanned(Token(ASSIGN, Some("="), L, C), p, p + 1))) &&
      (text[p] == '!' ==> TokenAt(text, p) == if two then Ok(Scanned(Token(NE, Some("!="), L, C), p, p + 2))
                                              else Err(LexError(UnexpectedBang, L, C, Some('!'))))
  {
  }

  /** Blanks and comments are skipped; an unterminated block comment is a
      fault at its opening; a '/' that opens no comment is a DIV token. */
  lemma TriviaSkipped(text: string, p: nat)
    requires p < |text|
    ensures IsBlank(text[p]) ==> NextToken(text, p) == NextToken(text, BlanksEnd(text, p))
    ensures text[p] == '#' ==> NextToken(text, p) == NextToken(text, LineCommentEnd(text, p))
    ensures OpensComment(text, p) && CommentClose(text, p + 2).Some? ==>
              NextToken(text, p) == NextToken(text, CommentClose(text, p + 2).value)
    ensures OpensComment(text, p) && (forall i :: p + 2 <= i < |text| ==> !ClosesComment(text, i)) ==>
              NextToken(text, p) ==
              Err(LexError(UnterminatedBlockComment, LineAt(text, p), ColAt(text, p), None))
    ensures text[p] == '/' && !OpensComment(text, p) ==>
              NextToken(text, p) == Ok(Scanned(Token(DIV, Some("/"), LineAt(text, p), ColAt(text, p)), p, p + 1))
  {
    if OpensComment(text, p) && (forall i :: p + 2 <= i < |text| ==> !ClosesComment(text, i)) {
      assert CommentClose(text, p + 2).None?;
    }
  }

  /** Any other character is a fault at its own position; this includes a
      '.' that no digit follows. */
  lemma InvalidCharacterRejected(text: string, p: nat)
    requires p < |text|
    requires text[p] !in "+-*/()><!=:" && !IsDigit(text[p]) && !IsIdentStart(text[p])
    requires text[p] == '.' ==> !DigitAt(text, p + 1)
    ensures TokenAt(text, p) == Err(LexError(InvalidCharacter, LineAt(text, p), ColAt(text, p), Some(text[p])))
  {
  }

  // ---------------------------------------------------------------------
  // Token kinds follow from lexemes

  lemma IdentifierIsNotNumeral(s: string)
    requires IsIdentifier(s)
    ensures !IsNumeral(s)
  {
    assert !IsDigit(s[0]) && s[0] != '.';
  }

  /** The kind a lexeme denotes on its own: an operator or punctuation mark,
      a numeric constant, or an identifier looked up as a reserved word. */
  ghost function Classify(v: string): Option<TokenType> {
    if v == "+" then Some(PLUS)
    else if v == "-" then Some(MINUS)
    else if v == "*" then Some(MUL)
    else if v == "/" then Some(DIV)
    else if v == "(" then Some(LPAREN)
    else if v == ")" then Some(RPAREN)
    else if v == ">" then Some(GT)
    else if v == ">=" then Some(GE)
    else if v == "<" then Some(LT)
    else if v == "<=" then Some(LE)
    else if v == "==" then Some(EQ)
    else if v == "!=" then Some(NE)
    else if v == "=" then Some(ASSIGN)
    else if v == ":" then Some(COLON)
    else if IsNumeral(v) then Some(NUMBER)
    else if IsIdentifier(v) then Some(KeywordType(v))
    else None
  }

  lemma TokenAtNumber(text: string, p: nat)
    requires p < |text| && (IsDigit(text[p]) || (text[p] == '.' && DigitAt(text, p + 1)))
    ensures TokenAt(text, p).Ok? ==> TokenAt(text, p) == ScanNumber(text, p)
  {
  }

  lemma TokenAtIdentifier(text: string, p: nat)
    requires p < |text| && IsIdentStart(text[p])
    ensures TokenAt(text, p) == ScanIdentifier(text, p)
  {
  }

  /** A fault after a token is the fault of the whole list. */
  lemma LexFromFault(text: string, p: nat, q: nat)
    requires p <= |text|
    requires NextToken(text, p).Ok? && NextToken(text, p).value.token.kind != EOF && NextToken(text, p).value.next == q
    requires LexFrom(text, q).Err?
    ensures LexFrom(text, p) == LexFrom(text, q)
  {
    LexFromUnfold(text, p);
  }

  /** The next token, when it starts with a letter or '_' after the trivia,
      is the word up to the end of the run of identifier characters. */
  lemma WordToken(text: string, p: nat, s: nat, q: nat)
    requires p <= s < q <= |text|
    requires SkipTrivia(text, p) == Ok(s) && IsIdentStart(text[s]) && IdentEnd(text, s) == q
    ensures NextToken(text, p) ==
            Ok(Scanned(Token(KeywordType(text[s..q]), Some(text[s..q]), LineAt(text, s), ColAt(text, s)), s, q))
  {
    TokenAtIdentifier(text, s);
  }

  /** A one-character operator or punctuation mark carries its spelling,
      which denotes its kind. */
  lemma TokenAtSingle(text: string, p: nat)
    requires p < |text| && text[p] in "+-*/():"
    ensures var r := TokenAt(text, p);
      r.Ok? && Spelling(r.value.token.kind).Some? && r.value.token.value == Spelling(r.value.token.kind) &&
      Classify(r.value.token.value.value) == Some(r.value.token.kind)
  {
  }

  /** The same for the relational operators and '='. */
  lemma TokenAtRelational(text: string, p: nat)
    requires p < |text| && text[p] in "><!="
    ensures var r := TokenAt(text, p);
      r.Ok? ==> (Spelling(r.value.token.kind).Some? && r.value.token.value == Spelling(r.value.token.kind) &&
                 Classify(r.value.token.value.value) == Some(r.value.token.kind))
  {
    RelationalOperators(text, p);
  }

  /** A numeral denotes NUMBER. */
  lemma NumberKindFromLexeme(text: string, p: nat)
    requires p < |text| && (IsDigit(text[p]) || (text[p] == '.' && DigitAt(text, p + 1)))
    requires ScanNumber(text, p).Ok?
    ensures var t := ScanNumber(text, p).value.token;
      t.value.Some? && Classify(t.value.value) == Some(t.kind) && Spelling(t.kind).None?
  {
    ScanNumberShape(text, p);
    var v := ScanNumber(text, p).value.token.value.value;
    assert v[0] == text[p];
  }

  /** An identifier denotes its reserved word's kind or IDENTIFIER. */
  lemma IdentifierKindFromLexeme(text: string, p: nat)
    requires p < |text| && IsIdentStart(text[p])
    ensures var t := ScanIdentifier(text, p).value.token;
      t.value.Some? && Classify(t.value.value) == Some(t.kind) && Spelling(t.kind).None?
  {
    ScanIdentifierShape(text, p);
    var v := ScanIdentifier(text, p).value.token.value.value;
    IdentifierIsNotNumeral(v);
    KeywordKinds(v);
    assert v[0] == text[p];
  }

  /** Every scanned lexeme denotes, on its own, the kind the scanner gave it,
      and operator tokens carry their fixed spelling. */
  lemma TokenKindFromLexeme(text: string, p: nat)
    requires p < |text| && TokenAt(text, p).Ok?
    ensures var t := TokenAt(text, p).value.token;
      t.value.Some? && Classify(t.value.value) == Some(t.kind) &&
      (Spelling(t.kind).Some? ==> t.value == Spelling(t.kind))
  {
    var c := text[p];
    if c in "+-*/():" {
      TokenAtSingle(text, p);
    } else if c in "><!=" {
      TokenAtRelational(text, p);
    } else if IsDigit(c) || (c == '.' && DigitAt(text, p + 1)) {
      TokenAtNumber(text, p);
      NumberKindFromLexeme(text, p);
    } else {
      TokenAtIdentifier(text, p);
      IdentifierKindFromLexeme(text, p);
    }
  }

  // ---------------------------------------------------------------------
  // The token list

  /** A token list is the next token followed by the list from where that
      token ends. */
  lemma LexFromCons(text: string, p: nat, q: nat, t: Token, rest: seq<Token>)
    requires p <= |text| && t.kind != EOF
    requires NextToken(text, p).Ok? && NextToken(text, p).value.token == t && NextToken(text, p).value.next == q
    requires LexFrom(text, q) == Ok(rest)
    ensures LexFrom(text, p) == Ok([t] + rest)
  {
    LexFromUnfold(text, p);
  }

  /** A token with a lexeme in front of a well-formed list keeps it
      well-formed. */
  lemma WellFormedCons(t: Token, rest: seq<Token>)
    requires WellFormed(rest) && t.kind != EOF && t.value.Some? && t.value.value != ""
    ensures WellFormed([t] + rest)
  {
    var ts := [t] + rest;
    forall i | 0 <= i < |ts| - 1
      ensures ts[i].kind != EOF && ts[i].value.Some? && ts[i].value.value != ""
    {
      if i > 0 {
        assert ts[i] == rest[i - 1];
      }
    }
  }

  /** `tokenize` returns a list that ends in its only end marker, which has
      no lexeme; every other token has a non-empty lexeme. */
  lemma {:induction false} LexFromWellFormed(text: string, p: nat)
    requires p <= |text| && LexFrom(text, p).Ok?
    ensures WellFormed(LexFrom(text, p).value)
    decreases |text| - p
  {
    LexFromUnfold(text, p);
    var s := NextToken(text, p).value;
    if s.token.kind != EOF {
      LexFromWellFormed(text, s.next);
      assert s.token.value == Some(text[s.start..s.next]);
      WellFormedCons(s.token, LexFrom(text, s.next).value);
    }
  }

  /** A token scanned after trivia is the token at the first offset past
      the trivia. */
  lemma NextTokenAfterTrivia(text: string, p: nat)
    requires p <= |text| && NextToken(text, p).Ok? && NextToken(text, p).value.token.kind != EOF
    ensures SkipTrivia(text, p).Ok? && SkipTrivia(text, p).value < |text|
    ensures NextToken(text, p) == TokenAt(text, SkipTrivia(text, p).value)
  {
  }

  /** The facts `LexemeSpans` states, for a list `ts` scanned from `p`. */
  ghost predicate SpansFit(text: string, ts: seq<Token>, spans: seq<(nat, nat)>, p: nat) {
    |ts| == |spans| + 1 &&
    ts[|spans|] == Token(EOF, None, LineAt(text, |text|), ColAt(text, |text|)) &&
    (forall i :: 0 <= i < |spans| ==> LexemeAt(text, ts[i], spans[i].0, spans[i].1)) &&
    (forall i :: 0 <= i < |spans| ==> p <= spans[i].0) &&
    (forall i :: 0 < i < |spans| ==> spans[i - 1].1 <= spans[i].0)
  }

  /** A token read at `start..next` in front of the tokens read from `next`
      keeps the spans in order. */
  lemma SpansCons(text: string, t: Token, start: nat, next: nat, p: nat,
                  rest: seq<Token>, restSpans: seq<(nat, nat)>)
    requires SpansFit(text, rest, restSpans, next) && LexemeAt(text, t, start, next) && p <= start
    ensures SpansFit(text, [t] + rest, [(start, next)] + restSpans, p)
  {
    var ts, spans := [t] + rest, [(start, next)] + restSpans;
    forall i | 0 < i < |spans| ensures LexemeAt(text, ts[i], spans[i].0, spans[i].1) && p <= spans[i].0 {
      assert ts[i] == rest[i - 1] && spans[i] == restSpans[i - 1];
    }
    forall i | 0 < i < |spans| ensures spans[i - 1].1 <= spans[i].0 {
      if i > 1 {
        assert spans[i - 1] == restSpans[i - 2];
      }
    }
  }

  /** Every token's lexeme is the slice of the text at the offsets `spans`
      gives, the slices are in order and do not overlap, and the end marker
      sits at the end of the text. */
  lemma {:induction false} LexemeSpans(text: string, p: nat) returns (spans: seq<(nat, nat)>)
    requires p <= |text| && LexFrom(text, p).Ok?
    ensures var ts := LexFrom(text, p).value;
      |ts| == |spans| + 1 &&
      ts[|spans|] == Token(EOF, None, LineAt(text, |text|), ColAt(text, |text|)) &&
      (forall i :: 0 <= i < |spans| ==> LexemeAt(text, ts[i], spans[i].0, spans[i].1)) &&
      (forall i :: 0 <= i < |spans| ==> p <= spans[i].0) &&
      (forall i :: 0 < i < |spans| ==> spans[i - 1].1 <= spans[i].0)
    decreases |text| - p
  {
    LexFromUnfold(text, p);
    var s := NextToken(text, p).value;
    if s.token.kind == EOF {
      spans := [];
      assert SpansFit(text, LexFrom(text, p).value, spans, p);
    } else {
      var rest := LexemeSpans(text, s.next);
      assert SpansFit(text, LexFrom(text, s.next).value, rest, s.next);
      SpansCons(text, s.token, s.start, s.next, p, LexFrom(text, s.next).value, rest);
      spans := [(s.start, s.next)] + rest;
    }
  }

  /** The facts `TokensFollowLexemes` states, for a list `ts`. */
  ghost predicate FollowLexemes(ts: seq<Token>) {
    Spelled(ts) &&
    forall i :: 0 <= i < |ts| && ts[i].kind != EOF ==>
      ts[i].value.Some? && Classify(ts[i].value.value) == Some(ts[i].kind)
  }

  lemma FollowLexemesCons(t: Token, rest: seq<Token>)
    requires FollowLexemes(rest)
    requires t.value.Some? && Classify(t.value.value) == Some(t.kind)
    requires Spelling(t.kind).Some? ==> t.value == Spelling(t.kind)
    ensures FollowLexemes([t] + rest)
  {
    var ts := [t] + rest;
    forall i | 0 < i < |ts| ensures ts[i] == rest[i - 1] {
    }
  }

  /** Every token's lexeme denotes its kind (numerals give NUMBER,
      identifiers their reserved word or IDENTIFIER, operators their own). */
  lemma {:induction false} TokensFollowLexemes(text: string, p: nat)
    requires p <= |text| && LexFrom(text, p).Ok?
    ensures var ts := LexFrom(text, p).value;
      Spelled(ts) &&
      forall i :: 0 <= i < |ts| && ts[i].kind != EOF ==>
        ts[i].value.Some? && Classify(ts[i].value.value) == Some(ts[i].kind)
    decreases |text| - p
  {
    LexFromUnfold(text, p);
    var s := NextToken(text, p).value;
    if s.token.kind == EOF {
      assert FollowLexemes(LexFrom(text, p).value);
    } else {
      NextTokenAfterTrivia(text, p);
      TokenKindFromLexeme(text, SkipTrivia(text, p).value);
      TokensFollowLexemes(text, s.next);
      assert FollowLexemes(LexFrom(text, s.next).value);
      FollowLexemesCons(s.token, LexFrom(text, s.next).value);
    }
  }

  /** Token positions never decrease through the list. */
  lemma TokenPositionsInOrder(text: string, p: nat)
    requires p <= |text| && LexFrom(text, p).Ok?
    ensures var ts := LexFrom(text, p).value;
      forall i :: 0 < i < |ts| ==> PosLe(ts[i - 1].line, ts[i - 1].column, ts[i].line, ts[i].column)
  {
    var ts := LexFrom(text, p).value;
    var spans := LexemeSpans(text, p);
    forall i | 0 < i < |ts|
      ensures PosLe(ts[i - 1].line, ts[i - 1].column, ts[i].line, ts[i].column)
    {
      if i < |spans| {
        PositionsMonotone(text, spans[i - 1].0, spans[i].0);
      } else {
        PositionsMonotone(text, spans[i - 1].0, |text|);
      }
    }
  }

  // ---------------------------------------------------------------------
  // Faults

  lemma {:induction false} SkipTriviaFaultPositioned(text: string, p: nat)
    requires p <= |text| && SkipTrivia(text, p).Err?
    ensures SkipTrivia(text, p).error.message == UnterminatedBlockComment
    ensures SkipTrivia(text, p).error.line >= 1 && SkipTrivia(text, p).error.column >= 1
    decreases |text| - p
  {
    if IsBlank(text[p]) {
      SkipTriviaFaultPositioned(text, BlanksEnd(text, p));
    } else if text[p] == '#' {
      SkipTriviaFaultPositioned(text, LineCommentEnd(text, p));
    } else if CommentClose(text, p + 2).Some? {
      SkipTriviaFaultPositioned(text, CommentClose(text, p + 2).value);
    }
  }

  /** A rejected numeric constant is reported at a real position: its
      start, or the second decimal point. */
  lemma ScanNumberFaultPositioned(text: string, p: nat)
    requires p < |text| && ScanNumber(text, p).Err?
    ensures ScanNumber(text, p).error.line >= 1 && ScanNumber(text, p).error.column >= 1
  {
    PositionOfCharacter(text, p);
    var d := DigitsEnd(text, p);
    if CharAt(text, p) != Some('.') && CharAt(text, d) == Some('.') && DigitAt(text, d + 1) {
      var d' := DigitsEnd(text, d + 1);
      if d' < |text| {
        PositionOfCharacter(text, d');
      }
    }
  }

  /** A token that cannot be read is reported at a real position. */
  lemma TokenAtFaultPositioned(text: string, p: nat)
    requires p < |text| && TokenAt(text, p).Err?
    ensures TokenAt(text, p).error.line >= 1 && TokenAt(text, p).error.column >= 1
  {
    PositionOfCharacter(text, p);
    if IsDigit(text[p]) || (text[p] == '.' && DigitAt(text, p + 1)) {
      if ScanNumber(text, p).Err? {
        ScanNumberFaultPositioned(text, p);
      }
    }
  }

  /** Every lexical fault has line and column at least 1. Where `error` gets
      no position (the second '.' of a constant) its fallback is the cursor,
      which the model reports. */
  lemma {:induction false} LexFaultPositioned(text: string, p: nat)
    requires p <= |text| && LexFrom(text, p).Err?
    ensures LexFrom(text, p).error.line >= 1 && LexFrom(text, p).error.column >= 1
    decreases |text| - p
  {
    LexFromUnfold(text, p);
    var q := SkipTrivia(text, p);
    if q.Err? {
      SkipTriviaFaultPositioned(text, p);
    } else if NextToken(text, p).Ok? {
      LexFaultPositioned(text, NextToken(text, p).value.next);
    } else {
      TokenAtFaultPositioned(text, q.value);
    }
  }
}
