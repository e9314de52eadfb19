/** The two analyses run one after the other, as `main` does: the scanner
    turns the program text into tokens, the parser builds the tree, and a
    lexical or a syntax fault ends the run. */
module Pipeline {
  import opened Wrappers
  import opened Tokens
  import opened LexSpec
  import opened LexProps
  import opened ParseSpec
  import opened ParseProps
  import opened LexicalAnalyzer
  import opened SyntacticAnalyzer

  /** How a run ends: with the tree, or with the fault that was raised. */
  datatype Analysis = Tree(root: Node) | LexFault(lexError: LexError) | SynFault(synError: SynErr)

  /** The outcome of analysing `source`, by the reference definitions. */
  function AnalyzeSpec(source: string): (a: Analysis)
    ensures a.LexFault? <==> Lex(source).Err?
    ensures a.LexFault? ==> a.lexError == Lex(source).error
  {
    var text := Normalize(source);
    match LexFrom(text, 0)
    case Err(e) => LexFault(e)
    case Ok(ts) =>
      LexFromWellFormed(text, 0);
      match Programa(ts, 0)
      case Ok(pr) => Tree(pr.node)
      case Err(e) => SynFault(e)
  }

  /** `Lexer(src)`, `Parser(lexer)` (whose construction tokenizes), then
      `parse_programa()`. */
  method Analyze(source: string) returns (a: Analysis)
    ensures a == AnalyzeSpec(source)
  {
    var lexer := new Lexer(source);
    var tokens := lexer.Tokenize();
    match tokens
    case Err(e) =>
      a := LexFault(e);
    case Ok(ts) =>
      LexFromWellFormed(lexer.text, 0);
      var parser := new Parser(ts);
      var tree := parser.ParsePrograma();
      match tree
      case Ok(root) =>
        a := Tree(root);
      case Err(e) =>
        a := SynFault(e);
  }

  /** The scanner's tokens are always a list the parser accepts as input:
      one end marker, last, and a spelled lexeme on every other token. */
  lemma LexedTokensAreParserInput(source: string)
    requires Lex(source).Ok?
    ensures WellFormed(Lex(source).value) && Spelled(Lex(source).value)
  {
    LexFromWellFormed(Normalize(source), 0);
    TokensFollowLexemes(Normalize(source), 0);
  }

  /** A lexical fault comes first and carries a real position. */
  lemma LexFaultFirst(source: string)
    ensures AnalyzeSpec(source).LexFault? <==> Lex(source).Err?
    ensures AnalyzeSpec(source).LexFault? ==>
      AnalyzeSpec(source).lexError == Lex(source).error &&
      AnalyzeSpec(source).lexError.line >= 1 && AnalyzeSpec(source).lexError.column >= 1
  {
    var text := Normalize(source);
    if LexFrom(text, 0).Err? {
      LexFaultPositioned(text, 0);
    }
  }

  /** A syntax fault means the whole text was scanned and the parser
      rejected the tokens with that fault. */
  lemma SyntaxFaultAfterScan(source: string)
    requires AnalyzeSpec(source).SynFault?
    ensures Lex(source).Ok? && WellFormed(Lex(source).value)
    ensures Programa(Lex(source).value, 0) == Err(AnalyzeSpec(source).synError)
  {
    LexFromWellFormed(Normalize(source), 0);
  }

  /** A tree is a `Programa` node with its seven parts, built from tokens
      opened by INICIO and closed (before any leftover tokens) by FIMPROG. */
  lemma TreeIsProgram(source: string)
    requires AnalyzeSpec(source).Tree?
    ensures Lex(source).Ok? && WellFormed(Lex(source).value)
    ensures var ts := Lex(source).value;
      var root := AnalyzeSpec(source).root;
      Programa(ts, 0).Ok? && root == Programa(ts, 0).value.node &&
      root.name == "Programa" && |root.children| == 7 &&
      ts[0].kind == INICIO && ts[Programa(ts, 0).value.next - 1].kind == FIMPROG
  {
    var text := Normalize(source);
    LexFromWellFormed(text, 0);
    var ts := LexFrom(text, 0).value;
    assert AnalyzeSpec(source) == Tree(Programa(ts, 0).value.node);
    ProgramaRoot(ts);
    ProgramaEnds(ts);
  }
}
