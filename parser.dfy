/** The recursive-descent parser of analisador_sintatico.py: a cursor over
    the token list with one method per grammar rule. Each method is proved
    to compute the corresponding function of ParseSpec. */
module SyntacticAnalyzer {
  import opened Wrappers
  import opened Tokens
  import opened ParseSpec

  /** A method result agrees with a rule function: the same subtree and the
      cursor where the function resumes, or the same fault. */
  ghost predicate Agrees(r: Result<Node, SynErr>, pos: nat, spec: Result<Parsed, SynErr>) {
    match spec
    case Ok(s) => r == Ok(s.node) && pos == s.next
    case Err(e) => r == Err(e)
  }

  /** The same agreement for a method that yields several subtrees. */
  ghost predicate AgreesList(r: Result<seq<Node>, SynErr>, pos: nat, spec: Result<ParsedList, SynErr>) {
    match spec
    case Ok(l) => r == Ok(l.nodes) && pos == l.next
    case Err(e) => r == Err(e)
  }

  /** `ns` followed by the subtrees of `r`, or the fault of `r`. */
  function PrependNodes(ns: seq<Node>, r: Result<ParsedList, SynErr>): Result<ParsedList, SynErr> {
    match r
    case Ok(l) => Ok(ParsedList(ns + l.nodes, l.next))
    case Err(e) => Err(e)
  }

  lemma PrependNodesNothing(r: Result<ParsedList, SynErr>)
    ensures PrependNodes([], r) == r
  {
    match r
    case Ok(l) => assert [] + l.nodes == l.nodes;
    case Err(_) =>
  }

  lemma PrependNodesTwice(a: seq<Node>, b: seq<Node>, r: Result<ParsedList, SynErr>)
    ensures PrependNodes(a, PrependNodes(b, r)) == PrependNodes(a + b, r)
  {
    match r
    case Ok(l) => assert a + (b + l.nodes) == (a + b) + l.nodes;
    case Err(_) =>
  }

  class Parser {
    const tokens: seq<Token>
    var pos: nat
    var currentToken: Token

    /** The cursor invariant: the list ends in its only end marker, and the
        current token is the one at `pos`. */
    ghost predicate Valid()
      reads this
    {
      WellFormed(tokens) && pos < |tokens| && currentToken == tokens[pos]
    }

    /** `__init__`, given the scanner's tokens: the cursor on the first one. */
    constructor (ts: seq<Token>)
      requires WellFormed(ts)
      ensures Valid() && tokens == ts && pos == 0
    {
      tokens := ts;
      pos := 0;
      currentToken := ts[0];
    }

    /** `advance`: move to the next token, but never past the last one. */
    method Advance()
      requires Valid()
      modifies this
      ensures Valid() && pos == NextIndex(tokens, old(pos))
    {
      if pos < |tokens| - 1 {
        pos := pos + 1;
        currentToken := tokens[pos];
      }
    }

    /** `eat`: consume a token of the given kind as a leaf; otherwise fail at
        the current token, which is left in place. */
    method Eat(kind: TokenType) returns (r: Result<Node, SynErr>)
      requires Valid()
      modifies this
      ensures Valid() && Agrees(r, pos, Expect(tokens, old(pos), kind))
      ensures r.Err? ==> pos == old(pos)
    {
      if currentToken.kind == kind {
        var node := Node(LeafLabel(currentToken), []);
        Advance();
        return Ok(node);
      }
      return Err(SynErr(Expected(kind, currentToken.kind), currentToken));
    }

    /** `peek_next_type`: the kind `offset` tokens ahead, if there is one. */
    method PeekNextType(offset: nat) returns (r: Option<TokenType>)
      requires Valid()
      ensures r == PeekType(tokens, pos, offset)
      ensures r.Some? ==> pos + offset < |tokens| && r.value == tokens[pos + offset].kind
    {
      var idx := pos + offset;
      if idx < |tokens| {
        return Some(tokens[idx].kind);
      }
      return None;
    }

    /** `peek_is_colon`: whether the next token is a ':'. */
    method PeekIsColon() returns (b: bool)
      requires Valid()
      ensures b == ParseSpec.PeekIsColon(tokens, pos)
    {
      if pos + 1 < |tokens| {
        return tokens[pos + 1].kind == COLON;
      }
      return false;
    }

    /** `parse_programa`. */
    method ParsePrograma() returns (r: Result<Node, SynErr>)
      requires Valid()
      modifies this
      ensures Valid() && Agrees(r, pos, Programa(tokens, old(pos)))
    {
      var inicio :- Eat(INICIO);
      var decls :- Eat(DECLS);
      var ds :- ParseDecls();
      var rest :- ParseCodigo();
      return Ok(Node("Programa", [inicio, decls, ds] + rest));
    }

    /** The last four steps of `parse_programa`: FIMDECLS, CODIGO, the
        commands, FIMPROG. */
    method ParseCodigo() returns (r: Result<seq<Node>, SynErr>)
      requires Valid()
      modifies this
      ensures Valid() && AgreesList(r, pos, Codigo(tokens, old(pos)))
    {
      var fimdecls :- Eat(FIMDECLS);
      var codigo :- Eat(CODIGO);
      var cs :- ParseComandos();
      var fimprog :- Eat(FIMPROG);
      return Ok([fimdecls, codigo, cs, fimprog]);
    }

    /** `parse_decls`. */
    method ParseDecls() returns (r: Result<Node, SynErr>)
      requires Valid()
      modifies this
      ensures Valid() && Agrees(r, pos, Decls(tokens, old(pos)))
    {
      var children: seq<Node> := [];
      PrependNodesNothing(DeclList(tokens, pos));
      while currentToken.kind !in {FIMDECLS, EOF}
        invariant Valid() && old(pos) <= pos
        invariant DeclList(tokens, old(pos)) == PrependNodes(children, DeclList(tokens, pos))
        decreases |tokens| - pos
      {
        ghost var p := pos;
        var isDecl := false;
        if currentToken.kind == IDENTIFIER {
          isDecl := PeekIsColon();
        }
        if !isDecl {
          return Err(SynErr(DeclarationExpected, currentToken));
        }
        var d :- ParseDecl();
        PrependNodesTwice(children, [d], DeclList(tokens, pos));
        children := children + [d];
      }
      assert children + [] == children;
      return Ok(Node("Decls", children));
    }

    /** `parse_decl`. */
    method ParseDecl() returns (r: Result<Node, SynErr>)
      requires Valid()
      modifies this
      ensures Valid() && Agrees(r, pos, Decl(tokens, old(pos)))
    {
      var name :- Eat(IDENTIFIER);
      var colon :- Eat(COLON);
      if currentToken.kind in {INT, FLOAT} {
        var ty := Eat(currentToken.kind);
        return Ok(Node("Decl", [name, colon, ty.value]));
      }
      return Err(SynErr(TypeExpected, currentToken));
    }

    /** `parse_comandos`. */
    method ParseComandos() returns (r: Result<Node, SynErr>)
      requires Valid()
      modifies this
      ensures Valid() && Agrees(r, pos, Comandos(tokens, old(pos)))
      decreases |tokens| - pos, 8
    {
      var children: seq<Node> := [];
      PrependNodesNothing(CommandList(tokens, pos));
      while currentToken.kind !in {FIMPROG, FIMBLOCO, FIMDECLS, EOF}
        invariant Valid() && old(pos) <= pos
        invariant CommandList(tokens, old(pos)) == PrependNodes(children, CommandList(tokens, pos))
        decreases |tokens| - pos
      {
        var c :- ParseComando();
        PrependNodesTwice(children, [c], CommandList(tokens, pos));
        children := children + [c];
      }
      assert children + [] == children;
      return Ok(Node("Comandos", children));
    }

    /** `parse_comando`. */
    method ParseComando() returns (r: Result<Node, SynErr>)
      requires Valid()
      modifies this
      ensures Valid() && Agrees(r, pos, Comando(tokens, old(pos)))
      decreases |tokens| - pos, 6
    {
      var ttype := currentToken.kind;
      if ttype == LEIA {
        var leia := Eat(LEIA);
        var name :- Eat(IDENTIFIER);
        return Ok(Node("Comando", [leia.value, name]));
      } else if ttype == ESCREVA {
        var escreva := Eat(ESCREVA);
        var open :- Eat(LPAREN);
        if currentToken.kind !in {IDENTIFIER, NUMBER} {
          return Err(SynErr(WriteArgumentExpected, currentToken));
        }
        var arg := Eat(currentToken.kind);
        var close :- Eat(RPAREN);
        return Ok(Node("Comando", [escreva.value, open, arg.value, close]));
      } else if ttype == SE {
        var c :- ParseIf();
        return Ok(Node("Comando", [c]));
      } else if ttype == IDENTIFIER {
        var nextType := PeekNextType(1);
        if nextType == Some(ASSIGN) {
          var a :- ParseAtribuicao();
          return Ok(Node("Comando", [a]));
        }
        return Err(SynErr(AssignExpected(nextType), currentToken));
      }
      return Err(SynErr(InvalidCommand, currentToken));
    }

    /** `parse_atribuicao`. */
    method ParseAtribuicao() returns (r: Result<Node, SynErr>)
      requires Valid()
      modifies this
      ensures Valid() && Agrees(r, pos, Atribuicao(tokens, old(pos)))
      decreases |tokens| - pos, 5
    {
      var name :- Eat(IDENTIFIER);
      var assign :- Eat(ASSIGN);
      var e :- ParseExpressaoLogica();
      return Ok(Node("Atribuicao", [name, assign, e]));
    }

    /** `parse_if`. */
    method ParseIf() returns (r: Result<Node, SynErr>)
      requires Valid()
      modifies this
      ensures Valid() && Agrees(r, pos, Condicional(tokens, old(pos)))
      decreases |tokens| - pos, 5
    {
      var se :- Eat(SE);
      var cond :- ParseExpressaoLogica();
      var entao :- Eat(ENTAO);
      var rest :- ParseBloco();
      return Ok(Node("Condicional", [se, cond, entao] + rest));
    }

    /** The last three steps of `parse_if`: BLOCO, the commands, FIMBLOCO. */
    method ParseBloco() returns (r: Result<seq<Node>, SynErr>)
      requires Valid()
      modifies this
      ensures Valid() && AgreesList(r, pos, Bloco(tokens, old(pos)))
      decreases |tokens| - pos, 5
    {
      var bloco :- Eat(BLOCO);
      var body :- ParseComandos();
      var fim :- Eat(FIMBLOCO);
      return Ok([bloco, body, fim]);
    }

    /** `parse_expressao_logica`: the single child is popped and re-wrapped
        under each E / OU operator. */
    method ParseExpressaoLogica() returns (r: Result<Node, SynErr>)
      requires Valid()
      modifies this
      ensures Valid() && Agrees(r, pos, ExpressaoLogica(tokens, old(pos)))
      decreases |tokens| - pos, 4
    {
      var first :- ParseExpressaoRelacional();
      var children := [first];
      ghost var start := pos;
      while currentToken.kind in {E, OU}
        invariant Valid() && old(pos) < start <= pos
        invariant |children| == 1
        invariant LogicaLoop(tokens, pos, children[0]) == LogicaLoop(tokens, start, first)
        decreases |tokens| - pos
      {
        var op := TypeName(currentToken.kind);
        Advance();
        var left := children[|children| - 1];
        children := children[..|children| - 1];
        var right :- ParseExpressaoRelacional();
        children := children + [Node(op, [left, right])];
      }
      assert LogicaLoop(tokens, pos, children[0]) == Ok(Parsed(children[0], pos));
      assert children == [children[0]];
      return Ok(Node("ExpressaoLogica", children));
    }

    /** `parse_expressao_relacional`: at most one relational operator. */
    method ParseExpressaoRelacional() returns (r: Result<Node, SynErr>)
      requires Valid()
      modifies this
      ensures Valid() && Agrees(r, pos, ExpressaoRelacional(tokens, old(pos)))
      decreases |tokens| - pos, 3
    {
      var left :- ParseExpressaoAritmetica();
      if currentToken.kind in {GT, LT, GE, LE, EQ, NE} {
        var op := Lexeme(currentToken);
        Advance();
        var right :- ParseExpressaoAritmetica();
        return Ok(Node("ExpressaoRelacional", [Node(op, [left, right])]));
      }
      return Ok(Node("ExpressaoRelacional", [left]));
    }

    /** `parse_expressao_aritmetica`. */
    method ParseExpressaoAritmetica() returns (r: Result<Node, SynErr>)
      requires Valid()
      modifies this
      ensures Valid() && Agrees(r, pos, ExpressaoAritmetica(tokens, old(pos)))
      decreases |tokens| - pos, 2
    {
      var first :- ParseTermo();
      var children := [first];
      ghost var start := pos;
      while currentToken.kind in {PLUS, MINUS}
        invariant Valid() && old(pos) < start <= pos
        invariant |children| == 1
        invariant AritmeticaLoop(tokens, pos, children[0]) == AritmeticaLoop(tokens, start, first)
        decreases |tokens| - pos
      {
        var op := Lexeme(currentToken);
        Advance();
        var left := children[|children| - 1];
        children := children[..|children| - 1];
        var right :- ParseTermo();
        children := children + [Node(op, [left, right])];
      }
      assert AritmeticaLoop(tokens, pos, children[0]) == Ok(Parsed(children[0], pos));
      assert children == [children[0]];
      return Ok(Node("ExpressaoAritmetica", children));
    }

    /** `parse_termo`. */
    method ParseTermo() returns (r: Result<Node, SynErr>)
      requires Valid()
      modifies this
      ensures Valid() && Agrees(r, pos, Termo(tokens, old(pos)))
      decreases |tokens| - pos, 1
    {
      var first :- ParseFator();
      var children := [first];
      ghost var start := pos;
      while currentToken.kind in {MUL, DIV}
        invariant Valid() && old(pos) < start <= pos
        invariant |children| == 1
        invariant TermoLoop(tokens, pos, children[0]) == TermoLoop(tokens, start, first)
        decreases |tokens| - pos
      {
        var op := Lexeme(currentToken);
        Advance();
        var left := children[|children| - 1];
        children := children[..|children| - 1];
        var right :- ParseFator();
        children := children + [Node(op, [left, right])];
      }
      assert TermoLoop(tokens, pos, children[0]) == Ok(Parsed(children[0], pos));
      assert children == [children[0]];
      return Ok(Node("Termo", children));
    }

    /** `parse_fator`. */
    method ParseFator() returns (r: Result<Node, SynErr>)
      requires Valid()
      modifies this
      ensures Valid() && Agrees(r, pos, Fator(tokens, old(pos)))
      decreases |tokens| - pos, 0
    {
      if currentToken.kind in {NUMBER, IDENTIFIER} {
        var node := Node(OperandLabel(currentToken), []);
        Advance();
        return Ok(node);
      } else if currentToken.kind == LPAREN {
        var open := Eat(LPAREN);
        var e :- ParseExpressaoLogica();
        var close :- Eat(RPAREN);
        return Ok(Node("Group", [open.value, e, close]));
      }
      return Err(SynErr(UnexpectedFactor, currentToken));
    }
  }
}
