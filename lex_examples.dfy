/** The scanner on concrete inputs, one lemma per behaviour. */
module LexExamples {
  import opened Wrappers
  import opened Tokens
  import opened LexSpec
  import opened LexProps

  /** An empty program is just the end marker at line 1, column 1. */
  lemma EmptyInput()
    ensures Lex("") == Ok([Token(EOF, None, 1, 1)])
  {
    assert Normalize("") == "";
  }

  /** "123" is one integer constant followed by the end marker. */
  lemma IntegerConstant(t: string)
    requires t == "123"
    ensures LexFrom(t, 0) == Ok([Token(NUMBER, Some("123"), 1, 1), Token(EOF, None, 1, 3)])
  {
    var num, eof := Token(NUMBER, Some("123"), 1, 1), Token(EOF, None, 1, 3);
    IntegerToken(t);
    IntegerEnd(t);
    TwoTokens(t, 3, num, eof);
  }

  /** The constant of "123", at line 1, column 1. */
  lemma IntegerToken(t: string)
    requires t == "123"
    ensures NextToken(t, 0) == Ok(Scanned(Token(NUMBER, Some("123"), 1, 1), 0, 3))
  {
    SingleLine(t, 0);
    DigitsEndAt(t, 0, 3);
    assert t[0..3] == t;
    assert BlanksEnd(t, 3) == 3;
    assert SkipTrivia(t, 0) == Ok(0);
    TokenAtNumber(t, 0);
  }

  /** A text of one token and the end marker. */
  lemma TwoTokens(text: string, q: nat, a: Token, b: Token)
    requires a.kind != EOF
    requires NextToken(text, 0).Ok? && NextToken(text, 0).value.token == a && NextToken(text, 0).value.next == q
    requires LexFrom(text, q) == Ok([b])
    ensures LexFrom(text, 0) == Ok([a, b])
  {
    LexFromCons(text, 0, q, a, [b]);
    assert [a] + [b] == [a, b];
  }

  /** After "123" only the end marker is left, at column 3. */
  lemma IntegerEnd(t: string)
    requires t == "123"
    ensures LexFrom(t, 3) == Ok([Token(EOF, None, 1, 3)])
  {
    SingleLine(t, 3);
    assert NextToken(t, 3) == Ok(Scanned(Token(EOF, None, 1, 3), 3, 3));
    LexFromUnfold(t, 3);
  }

  /** "123.456" is one constant with its fraction, then the end marker at column 7. */
  lemma FractionConstant(t: string)
    requires t == "123.456"
    ensures LexFrom(t, 0) == Ok([Token(NUMBER, Some("123.456"), 1, 1), Token(EOF, None, 1, 7)])
  {
    var num, eof := Token(NUMBER, Some("123.456"), 1, 1), Token(EOF, None, 1, 7);
    FractionToken(t);
    FractionEnd(t);
    TwoTokens(t, 7, num, eof);
  }

  /** The constant of "123.456", at line 1, column 1. */
  lemma FractionToken(t: string)
    requires t == "123.456"
    ensures NextToken(t, 0) == Ok(Scanned(Token(NUMBER, Some("123.456"), 1, 1), 0, 7))
  {
    FractionScan(t);
    assert BlanksEnd(t, 7) == 7;
    AcceptedNumberToken(t, 0);
    assert SkipTrivia(t, 0) == Ok(0);
    assert NextToken(t, 0) == TokenAt(t, 0);
  }

  /** A constant that no '.' follows is the token at its start. */
  lemma AcceptedNumberToken(text: string, p: nat)
    requires p < |text| && (IsDigit(text[p]) || (text[p] == '.' && DigitAt(text, p + 1)))
    requires ScanNumber(text, p).Ok? && NextNonBlank(text, ScanNumber(text, p).value.next) != Some('.')
    ensures TokenAt(text, p) == ScanNumber(text, p)
  {
  }

  /** `number` on "123.456" takes the whole text. */
  lemma FractionScan(t: string)
    requires t == "123.456"
    ensures ScanNumber(t, 0) == Ok(Scanned(Token(NUMBER, Some("123.456"), 1, 1), 0, 7))
  {
    SingleLine(t, 0);
    assert DigitsOn(t, 0, 3) && DigitsOn(t, 4, 7);
    FractionAccepted(t, 0, 3, 7);
    assert t[0..7] == t;
  }

  /** After "123.456" only the end marker is left, at column 7. */
  lemma FractionEnd(t: string)
    requires t == "123.456"
    ensures LexFrom(t, 7) == Ok([Token(EOF, None, 1, 7)])
  {
    SingleLine(t, 7);
    assert NextToken(t, 7) == Ok(Scanned(Token(EOF, None, 1, 7), 7, 7));
    LexFromUnfold(t, 7);
  }

  /** ".5" is one constant that starts with its decimal point. */
  lemma LeadingDotConstant(t: string)
    requires t == ".5"
    ensures LexFrom(t, 0) == Ok([Token(NUMBER, Some(".5"), 1, 1), Token(EOF, None, 1, 2)])
  {
    var num, eof := Token(NUMBER, Some(".5"), 1, 1), Token(EOF, None, 1, 2);
    LeadingDotToken(t);
    LeadingDotEnd(t);
    TwoTokens(t, 2, num, eof);
  }

  /** The constant of ".5", at line 1, column 1. */
  lemma LeadingDotToken(t: string)
    requires t == ".5"
    ensures NextToken(t, 0) == Ok(Scanned(Token(NUMBER, Some(".5"), 1, 1), 0, 2))
  {
    SingleLine(t, 0);
    LeadingDotAccepted(t, 0, 2);
    assert t[0..2] == t;
    assert BlanksEnd(t, 2) == 2;
    assert SkipTrivia(t, 0) == Ok(0);
    TokenAtNumber(t, 0);
  }

  /** After ".5" only the end marker is left, at column 2. */
  lemma LeadingDotEnd(t: string)
    requires t == ".5"
    ensures LexFrom(t, 2) == Ok([Token(EOF, None, 1, 2)])
  {
    SingleLine(t, 2);
    assert NextToken(t, 2) == Ok(Scanned(Token(EOF, None, 1, 2), 2, 2));
    LexFromUnfold(t, 2);
  }

  /** "1." is rejected at the constant's start. */
  lemma TrailingDot(t: string)
    requires t == "1."
    ensures Lex(t) == Err(LexError(DigitsRequiredAfterDecimalPoint, 1, 1, Some('.')))
  {
    LexCleanText(t);
    TrailingDotRejected(t, 0, 1);
    SingleLine(t, 0);
    assert SkipTrivia(t, 0) == Ok(0);
    LexFromUnfold(t, 0);
  }

  /** The second '.' of "1.2.3" is reported at its own column. */
  lemma TwoDecimalPoints(t: string)
    requires t == "1.2.3"
    ensures LexFrom(t, 0) == Err(LexError(MultipleDecimalPoints, 1, 4, Some('.')))
  {
    SecondDotRejected(t, 0, 1, 3);
    SingleLine(t, 3);
    assert SkipTrivia(t, 0) == Ok(0);
    LexFromUnfold(t, 0);
  }

  /** A '.' after a constant is rejected even past blanks, at the
      constant's start. */
  lemma DotAfterSpace(t: string)
    requires t == "1 .5"
    ensures Lex(t) == Err(LexError(UnexpectedDotAfterNumber, 1, 1, Some('.')))
  {
    LexCleanText(t);
    DigitsEndAt(t, 0, 1);
    assert ScanNumber(t, 0) == Ok(Scanned(Token(NUMBER, Some(t[0..1]), LineAt(t, 0), ColAt(t, 0)), 0, 1));
    assert BlanksEnd(t, 2) == 2;
    assert BlanksEnd(t, 1) == 2;
    assert NextNonBlank(t, 1) == Some('.');
    DotAfterNumberRejected(t, 0);
    SingleLine(t, 0);
    assert SkipTrivia(t, 0) == Ok(0);
    LexFromUnfold(t, 0);
  }

  /** A constant that starts with '.' ends at its digits; a '.' right after
      it is then a dot after a number. */
  lemma DotAfterFraction(t: string)
    requires t == ".5.3"
    ensures Lex(t) == Err(LexError(UnexpectedDotAfterNumber, 1, 1, Some('.')))
  {
    LexCleanText(t);
    DigitsEndAt(t, 1, 2);
    assert ScanNumber(t, 0) == Ok(Scanned(Token(NUMBER, Some(t[0..2]), LineAt(t, 0), ColAt(t, 0)), 0, 2));
    assert BlanksEnd(t, 2) == 2;
    assert NextNonBlank(t, 2) == Some('.');
    DotAfterNumberRejected(t, 0);
    SingleLine(t, 0);
    assert SkipTrivia(t, 0) == Ok(0);
    LexFromUnfold(t, 0);
  }

  /** Reserved words ignore case; the lexeme keeps it: "INT Int int" is
      three INT tokens at columns 1, 5 and 9. */
  lemma ReservedWordUpper(t: string)
    requires t == "INT Int int"
    ensures NextToken(t, 0) == Ok(Scanned(Token(INT, Some("INT"), 1, 1), 0, 3))
  {
    SingleLine(t, 0);
    IdentEndAt(t, 0, 3);
    assert t[0..3] == "INT";
    assert Lower("INT") == "int";
    assert SkipTrivia(t, 0) == Ok(0);
    WordToken(t, 0, 0, 3);
  }

  lemma ReservedWordMixed(t: string)
    requires t == "INT Int int"
    ensures NextToken(t, 3) == Ok(Scanned(Token(INT, Some("Int"), 1, 5), 4, 7))
  {
    SingleLine(t, 4);
    IdentEndAt(t, 4, 7);
    assert t[4..7] == "Int";
    assert Lower("Int") == "int";
    assert SkipTrivia(t, 3) == Ok(4);
    WordToken(t, 3, 4, 7);
  }

  lemma ReservedWordLower(t: string)
    requires t == "INT Int int"
    ensures NextToken(t, 7) == Ok(Scanned(Token(INT, Some("int"), 1, 9), 8, 11))
    ensures NextToken(t, 11) == Ok(Scanned(Token(EOF, None, 1, 11), 11, 11))
  {
    SingleLine(t, 8);
    IdentEndAt(t, 8, 11);
    assert t[8..11] == "int";
    assert Lower("int") == "int";
    assert SkipTrivia(t, 7) == Ok(8);
    WordToken(t, 7, 8, 11);
    SingleLine(t, 11);
  }

  /** An unterminated block comment is reported at its opening. */
  lemma OpenComment(t: string)
    requires t == "/* never closes"
    ensures LexFrom(t, 0) == Err(LexError(UnterminatedBlockComment, 1, 1, None))
  {
    UnclosedComment(t);
    LexFromUnfold(t, 0);
  }

  // Nothing after the comment opener of "/* never closes" closes it.
  lemma UnclosedComment(t: string)
    requires t == "/* never closes"
    ensures NextToken(t, 0) == Err(LexError(UnterminatedBlockComment, 1, 1, None))
  {
    SingleLine(t, 0);
    NoCloser(t);
    TriviaSkipped(t, 0);
  }

  lemma NoCloser(t: string)
    requires t == "/* never closes"
    ensures OpensComment(t, 0)
    ensures forall i :: 2 <= i < |t| ==> !ClosesComment(t, i)
  {
  }

  /** "\r\n" and a lone "\r" are line breaks. */
  lemma LineBreaksNormalised(source: string)
    requires source == "a\r\nb\rc"
    ensures Normalize(source) == "a\nb\nc"
  {
    assert ReplaceCrLf("\r\nb\rc") == "\n" + ReplaceCrLf("b\rc");
  }

  /** A line break advances the line and restarts the column. */
  lemma SecondLine(t: string)
    requires t == "a\nb\n"
    ensures NextToken(t, 1) == Ok(Scanned(Token(IDENTIFIER, Some("b"), 2, 1), 2, 3))
  {
    assert t[..2] == "a\n" && t[..2][..1] == "a" && "a"[..0] == [];
    assert Newlines(t[..2]) == 1 && Column(t[..2]) == 0;
    assert LineAt(t, 2) == 2 && ColAt(t, 2) == 1;
    IdentEndAt(t, 2, 3);
    assert t[2..3] == "b";
    assert Lower("b") == "b";
    assert BlanksEnd(t, 2) == 2;
    assert SkipTrivia(t, 1) == Ok(2);
    TokenAtIdentifier(t, 2);
  }

  /** After a final line break the end marker is on the next line, at
      column 0. */
  lemma EndAfterLineBreak(t: string)
    requires t == "a\nb\n"
    ensures NextToken(t, 3) == Ok(Scanned(Token(EOF, None, 3, 0), 4, 4))
  {
    assert t[..4] == t && t[..3] == "a\nb" && t[..3][..2] == "a\n" && t[..2][..1] == "a" && "a"[..0] == [];
    assert Newlines(t[..2]) == 1;
    assert t[..3][..2] == t[..2];
    assert Newlines(t[..3]) == 1;
    assert Newlines(t) == 2 && Column(t) == 0;
    assert BlanksEnd(t, 3) == 4;
    assert SkipTrivia(t, 3) == Ok(4);
  }

  /** A '!' must be followed by '='. */
  lemma LoneBang(t: string)
    requires t == "x ! y"
    ensures LexFrom(t, 0) == Err(LexError(UnexpectedBang, 1, 3, Some('!')))
  {
    NameBeforeBang(t);
    BangAlone(t);
    LexFromFault(t, 0, 1);
  }

  /** The "x" of "x ! y". */
  lemma NameBeforeBang(t: string)
    requires t == "x ! y"
    ensures NextToken(t, 0) == Ok(Scanned(Token(IDENTIFIER, Some("x"), 1, 1), 0, 1))
  {
    SingleLine(t, 0);
    IdentEndAt(t, 0, 1);
    assert t[0..1] == "x";
    assert Lower("x") == "x";
    assert SkipTrivia(t, 0) == Ok(0);
    WordToken(t, 0, 0, 1);
  }

  /** The "!" of "x ! y", followed by a blank. */
  lemma BangAlone(t: string)
    requires t == "x ! y"
    ensures LexFrom(t, 1) == Err(LexError(UnexpectedBang, 1, 3, Some('!')))
  {
    SingleLine(t, 2);
    assert BlanksEnd(t, 1) == 2;
    assert SkipTrivia(t, 2) == Ok(2);
    assert SkipTrivia(t, 1) == Ok(2);
    assert NextToken(t, 1) == Err(LexError(UnexpectedBang, 1, 3, Some('!')));
    LexFromUnfold(t, 1);
  }
}
