/** The parser on concrete token lists. Each list is the one the scanner
    returns for the one-line text quoted in its lemma (line 1, the column of
    each first character, the end marker at the last column);
    `ScannedIdentifierWithoutAssign` derives one of them through `Lex`. */
module ParseExamples {
  import opened Wrappers
  import opened Tokens
  import opened LexSpec
  import opened LexProps
  import opened ParseSpec
  import opened ParseProps

  /** A token on line 1 with its lexeme and column. */
  function Tk(kind: TokenType, lexeme: string, column: nat): Token {
    Token(kind, Some(lexeme), 1, column)
  }

  /** "INICIO DECLS FIMDECLS CODIGO FIMPROG": the root has the seven
      structural children, with empty declarations and commands. */
  lemma MinimalProgram(ts: seq<Token>)
    requires ts == [Tk(INICIO, "INICIO", 1), Tk(DECLS, "DECLS", 8), Tk(FIMDECLS, "FIMDECLS", 14),
                    Tk(CODIGO, "CODIGO", 23), Tk(FIMPROG, "FIMPROG", 30), Token(EOF, None, 1, 36)]
    ensures WellFormed(ts)
    ensures Programa(ts, 0) ==
            Ok(Parsed(Node("Programa", [Node("INICIO(INICIO)", []), Node("DECLS(DECLS)", []), Node("Decls", []),
                                        Node("FIMDECLS(FIMDECLS)", []), Node("CODIGO(CODIGO)", []),
                                        Node("Comandos", []), Node("FIMPROG(FIMPROG)", [])]), 5))
  {
    assert WellFormed(ts);
    OpeningLeaves(ts);
    ClosingLeaves(ts);
    EmptyDecls(ts, 2);
    EmptyComandos(ts, 4);
    ProgramaFrom(ts, 2, 4);
  }

  /** The labels `eat` gives the first three structural keywords:
      KIND(lexeme). */
  lemma OpeningLeaves(ts: seq<Token>)
    requires |ts| >= 3
    requires ts[0].kind == INICIO && ts[0].value == Some("INICIO")
    requires ts[1].kind == DECLS && ts[1].value == Some("DECLS")
    requires ts[2].kind == FIMDECLS && ts[2].value == Some("FIMDECLS")
    ensures Leaf(ts[0]) == Node("INICIO(INICIO)", []) && Leaf(ts[1]) == Node("DECLS(DECLS)", [])
    ensures Leaf(ts[2]) == Node("FIMDECLS(FIMDECLS)", [])
  {
    assert LeafLabel(ts[0]) == "INICIO" + "(" + "INICIO" + ")";
    assert LeafLabel(ts[1]) == "DECLS" + "(" + "DECLS" + ")";
    assert LeafLabel(ts[2]) == "FIMDECLS" + "(" + "FIMDECLS" + ")";
  }

  /** ... and the last two. */
  lemma ClosingLeaves(ts: seq<Token>)
    requires |ts| >= 5
    requires ts[3].kind == CODIGO && ts[3].value == Some("CODIGO")
    requires ts[4].kind == FIMPROG && ts[4].value == Some("FIMPROG")
    ensures Leaf(ts[3]) == Node("CODIGO(CODIGO)", []) && Leaf(ts[4]) == Node("FIMPROG(FIMPROG)", [])
  {
    assert LeafLabel(ts[3]) == "CODIGO" + "(" + "CODIGO" + ")";
    assert LeafLabel(ts[4]) == "FIMPROG" + "(" + "FIMPROG" + ")";
  }

  /** The parser stops after FIMPROG without looking for the end marker, so
      "INICIO DECLS FIMDECLS CODIGO FIMPROG x" is accepted and the trailing
      "x" is never read. */
  lemma TrailingTokensAccepted(ts: seq<Token>)
    requires ts == [Tk(INICIO, "INICIO", 1), Tk(DECLS, "DECLS", 8), Tk(FIMDECLS, "FIMDECLS", 14),
                    Tk(CODIGO, "CODIGO", 23), Tk(FIMPROG, "FIMPROG", 30), Tk(IDENTIFIER, "x", 38),
                    Token(EOF, None, 1, 38)]
    ensures WellFormed(ts)
    ensures Programa(ts, 0).Ok? && Programa(ts, 0).value.next == 5 && ts[5].kind != EOF
  {
    assert WellFormed(ts);
    EmptyDecls(ts, 2);
    EmptyComandos(ts, 4);
    ProgramaFrom(ts, 2, 4);
  }

  /** "x y": an identifier that starts a command must be followed by '=';
      the fault is at the identifier and names the kind that followed. */
  lemma IdentifierWithoutAssign(ts: seq<Token>)
    requires ts == [Tk(IDENTIFIER, "x", 1), Tk(IDENTIFIER, "y", 3), Token(EOF, None, 1, 3)]
    ensures WellFormed(ts)
    ensures Comando(ts, 0) == Err(SynErr(AssignExpected(Some(IDENTIFIER)), Tk(IDENTIFIER, "x", 1)))
  {
    assert WellFormed(ts);
  }

  /** Scanning "x y" and parsing a command from its first token: the
      scanner gives the list of `IdentifierWithoutAssign`, so the fault is
      the one `parse_comando` raises on that text. */
  lemma ScannedIdentifierWithoutAssign(t: string)
    requires t == "x y"
    ensures Lex(t) == Ok([Tk(IDENTIFIER, "x", 1), Tk(IDENTIFIER, "y", 3), Token(EOF, None, 1, 3)])
    ensures WellFormed(Lex(t).value)
    ensures Comando(Lex(t).value, 0) == Err(SynErr(AssignExpected(Some(IDENTIFIER)), Tk(IDENTIFIER, "x", 1)))
  {
    ScannedNames(t);
    IdentifierWithoutAssign(Lex(t).value);
  }

  /** The tokens of "x y". */
  lemma ScannedNames(t: string)
    requires t == "x y"
    ensures Lex(t) == Ok([Tk(IDENTIFIER, "x", 1), Tk(IDENTIFIER, "y", 3), Token(EOF, None, 1, 3)])
  {
    LexCleanText(t);
    NamesFromStart(t);
  }

  lemma NamesFromStart(t: string)
    requires t == "x y"
    ensures LexFrom(t, 0) == Ok([Tk(IDENTIFIER, "x", 1), Tk(IDENTIFIER, "y", 3), Token(EOF, None, 1, 3)])
  {
    FirstName(t);
    SecondName(t);
    NamesEnd(t);
    ThreeTokens(t, 0, 1, 3, Tk(IDENTIFIER, "x", 1), Tk(IDENTIFIER, "y", 3), Token(EOF, None, 1, 3));
  }

  /** A text of two tokens, ending at offsets `q` and `r`, and the end marker. */
  lemma ThreeTokens(text: string, p: nat, q: nat, r: nat, a: Token, b: Token, c: Token)
    requires p <= q <= r <= |text| && a.kind != EOF && b.kind != EOF
    requires NextToken(text, p).Ok? && NextToken(text, p).value.token == a && NextToken(text, p).value.next == q
    requires NextToken(text, q).Ok? && NextToken(text, q).value.token == b && NextToken(text, q).value.next == r
    requires LexFrom(text, r) == Ok([c])
    ensures LexFrom(text, p) == Ok([a, b, c])
  {
    TokenThenEnd(text, q, r, b, c);
    LexFromCons(text, p, q, a, [b, c]);
    assert [a] + [b, c] == [a, b, c];
  }

  lemma TokenThenEnd(text: string, p: nat, q: nat, b: Token, c: Token)
    requires p <= q <= |text| && b.kind != EOF
    requires NextToken(text, p).Ok? && NextToken(text, p).value.token == b && NextToken(text, p).value.next == q
    requires LexFrom(text, q) == Ok([c])
    ensures LexFrom(text, p) == Ok([b, c])
  {
    LexFromCons(text, p, q, b, [c]);
    assert [b] + [c] == [b, c];
  }

  lemma FirstName(t: string)
    requires t == "x y"
    ensures NextToken(t, 0) == Ok(Scanned(Tk(IDENTIFIER, "x", 1), 0, 1))
  {
    SingleLine(t, 0);
    IdentEndAt(t, 0, 1);
    assert t[0..1] == "x";
    assert Lower("x") == "x";
    assert SkipTrivia(t, 0) == Ok(0);
    WordToken(t, 0, 0, 1);
  }

  lemma SecondName(t: string)
    requires t == "x y"
    ensures NextToken(t, 1) == Ok(Scanned(Tk(IDENTIFIER, "y", 3), 2, 3))
  {
    SingleLine(t, 2);
    IdentEndAt(t, 2, 3);
    assert t[2..3] == "y";
    assert Lower("y") == "y";
    assert BlanksEnd(t, 1) == 2;
    assert SkipTrivia(t, 1) == Ok(2);
    WordToken(t, 1, 2, 3);
  }

  lemma NamesEnd(t: string)
    requires t == "x y"
    ensures LexFrom(t, 3) == Ok([Token(EOF, None, 1, 3)])
  {
    SingleLine(t, 3);
    assert NextToken(t, 3) == Ok(Scanned(Token(EOF, None, 1, 3), 3, 3));
    LexFromUnfold(t, 3);
  }

  /** "2+3*4": the right operand of '+' is the term holding 3*4. */
  lemma Precedence(ts: seq<Token>)
    requires ts == [Tk(NUMBER, "2", 1), Tk(PLUS, "+", 2), Tk(NUMBER, "3", 3), Tk(MUL, "*", 4),
                    Tk(NUMBER, "4", 5), Token(EOF, None, 1, 5)]
    ensures WellFormed(ts)
    ensures ExpressaoAritmetica(ts, 0) ==
            Ok(Parsed(Node("ExpressaoAritmetica", [
                 Node("+", [Node("Termo", [Node("NUMBER(2)", [])]),
                            Node("Termo", [Node("*", [Node("NUMBER(3)", []), Node("NUMBER(4)", [])])])])]), 5))
  {
    assert WellFormed(ts);
    NumberLabels(ts);
    var two := Node("Termo", [Node("NUMBER(2)", [])]);
    var three := Node("NUMBER(3)", []);
    var four := Node("NUMBER(4)", []);
    var product := Node("Termo", [Node("*", [three, four])]);
    assert Fator(ts, 2) == Ok(Parsed(three, 3));
    assert Fator(ts, 4) == Ok(Parsed(four, 5));
    ProductStep(ts, 3, three);
    ProductStep(ts, 5, Node("*", [three, four]));
    assert Termo(ts, 2) == Ok(Parsed(product, 5));
    LoneOperandTerm(ts, 0);
    SumStep(ts, 1, two);
    SumStep(ts, 5, Node("+", [two, product]));
  }

  /** The operand labels and operator lexemes of "2+3*4". */
  lemma NumberLabels(ts: seq<Token>)
    requires ts == [Tk(NUMBER, "2", 1), Tk(PLUS, "+", 2), Tk(NUMBER, "3", 3), Tk(MUL, "*", 4),
                    Tk(NUMBER, "4", 5), Token(EOF, None, 1, 5)]
    ensures OperandLabel(ts[0]) == "NUMBER(2)" && OperandLabel(ts[2]) == "NUMBER(3)"
    ensures OperandLabel(ts[4]) == "NUMBER(4)"
    ensures Lexeme(ts[1]) == "+" && Lexeme(ts[3]) == "*"
  {
    assert OperandLabel(ts[0]) == "NUMBER" + "(" + "2" + ")";
    assert OperandLabel(ts[2]) == "NUMBER" + "(" + "3" + ")";
    assert OperandLabel(ts[4]) == "NUMBER" + "(" + "4" + ")";
  }

  /** "a-b-c": the outer '-' has the '-' of a-b as its left operand. */
  lemma LeftAssociative(ts: seq<Token>)
    requires ts == [Tk(IDENTIFIER, "a", 1), Tk(MINUS, "-", 2), Tk(IDENTIFIER, "b", 3), Tk(MINUS, "-", 4),
                    Tk(IDENTIFIER, "c", 5), Token(EOF, None, 1, 5)]
    ensures WellFormed(ts)
    ensures ExpressaoAritmetica(ts, 0) ==
            Ok(Parsed(Node("ExpressaoAritmetica", [
                 Node("-", [Node("-", [Node("Termo", [Node("IDENTIFIER(a)", [])]),
                                       Node("Termo", [Node("IDENTIFIER(b)", [])])]),
                            Node("Termo", [Node("IDENTIFIER(c)", [])])])]), 5))
  {
    assert WellFormed(ts);
    NameLabels(ts);
    var a := Node("Termo", [Node("IDENTIFIER(a)", [])]);
    var b := Node("Termo", [Node("IDENTIFIER(b)", [])]);
    var c := Node("Termo", [Node("IDENTIFIER(c)", [])]);
    LoneOperandTerm(ts, 0);
    LoneOperandTerm(ts, 2);
    LoneOperandTerm(ts, 4);
    SumStep(ts, 1, a);
    SumStep(ts, 3, Node("-", [a, b]));
    SumStep(ts, 5, Node("-", [Node("-", [a, b]), c]));
  }

  /** The operand labels and operator lexemes of "a-b-c". */
  lemma NameLabels(ts: seq<Token>)
    requires ts == [Tk(IDENTIFIER, "a", 1), Tk(MINUS, "-", 2), Tk(IDENTIFIER, "b", 3), Tk(MINUS, "-", 4),
                    Tk(IDENTIFIER, "c", 5), Token(EOF, None, 1, 5)]
    ensures OperandLabel(ts[0]) == "IDENTIFIER(a)" && OperandLabel(ts[2]) == "IDENTIFIER(b)"
    ensures OperandLabel(ts[4]) == "IDENTIFIER(c)"
    ensures Lexeme(ts[1]) == "-" && Lexeme(ts[3]) == "-"
  {
    assert OperandLabel(ts[0]) == "IDENTIFIER" + "(" + "a" + ")";
    assert OperandLabel(ts[2]) == "IDENTIFIER" + "(" + "b" + ")";
    assert OperandLabel(ts[4]) == "IDENTIFIER" + "(" + "c" + ")";
  }

  /** "x = a < b < c": the relational level takes "a < b" only, so the
      assignment ends before the second '<'. */
  lemma ComparisonTakesOneOperator(ts: seq<Token>)
    requires ts == [Tk(IDENTIFIER, "x", 1), Tk(ASSIGN, "=", 3), Tk(IDENTIFIER, "a", 5), Tk(LT, "<", 7),
                    Tk(IDENTIFIER, "b", 9), Tk(LT, "<", 11), Tk(IDENTIFIER, "c", 13), Token(EOF, None, 1, 13)]
    ensures WellFormed(ts)
    ensures Comando(ts, 0).Ok? && Comando(ts, 0).value.next == 5
  {
    assert WellFormed(ts);
    LoneOperandExpression(ts, 2);
    LoneOperandExpression(ts, 4);
    ComparisonStep(ts, 2);
    assert ExpressaoRelacional(ts, 2).value.next == 5;
    LoneComparisonLogic(ts, 2);
    AssignmentCommand(ts, 0);
  }

  /** ... and the second '<' is then rejected as the start of a command. */
  lemma ChainedComparison(ts: seq<Token>)
    requires ts == [Tk(IDENTIFIER, "x", 1), Tk(ASSIGN, "=", 3), Tk(IDENTIFIER, "a", 5), Tk(LT, "<", 7),
                    Tk(IDENTIFIER, "b", 9), Tk(LT, "<", 11), Tk(IDENTIFIER, "c", 13), Token(EOF, None, 1, 13)]
    ensures WellFormed(ts)
    ensures CommandList(ts, 0) == Err(SynErr(InvalidCommand, Tk(LT, "<", 11)))
  {
    ComparisonTakesOneOperator(ts);
    assert Comando(ts, 5) == Err(SynErr(InvalidCommand, ts[5]));
    assert CommandList(ts, 5) == Err(SynErr(InvalidCommand, ts[5]));
  }
}
