/** A functional reference definition of the recursive-descent parser in
    analisador_sintatico.py. Every grammar rule is a function of the token
    list and the index of the current token, returning the subtree it builds
    and the index where parsing resumes, or the syntax fault it raises. The
    imperative Parser class is proved to compute exactly these. */
module ParseSpec {
  import opened Wrappers
  import opened Tokens

  /** A parse-tree node: its label (`name`, since `label` is a keyword of
      Dafny) and its ordered children. */
  datatype Node = Node(name: string, children: seq<Node>)

  /** The message of a syntax fault, one per `SyntaxError_` raised. */
  datatype SynMessage =
    | Expected(expected: TokenType, found: TokenType)   // `eat` on the wrong kind
    | DeclarationExpected                               // `parse_decls`
    | TypeExpected                                      // `parse_decl`
    | WriteArgumentExpected                             // ESCREVA(...) argument
    | AssignExpected(after: Option<TokenType>)          // identifier not followed by '='
    | InvalidCommand                                    // `parse_comando`
    | UnexpectedFactor                                  // `parse_fator`

  /** A syntax fault and the token it is reported at. */
  datatype SynErr = SynErr(message: SynMessage, token: Token)

  /** A subtree and the index of the token after it. */
  datatype Parsed = Parsed(node: Node, next: nat)

  /** The subtrees of a repetition and the index of the token after them. */
  datatype ParsedList = ParsedList(nodes: seq<Node>, next: nat)

  /** The index `advance` moves to: the next one, except on the last token. */
  function NextIndex(ts: seq<Token>, p: nat): nat {
    if p < |ts| - 1 then p + 1 else p
  }

  /** The lexeme of a token; every token but the end marker carries one. */
  function Lexeme(t: Token): string {
    if t.value.Some? then t.value.value else ""
  }

  /** The label `eat` gives a leaf: KIND(lexeme), or KIND for a token whose
      lexeme is absent or empty. */
  function LeafLabel(t: Token): string {
    if t.value.Some? && t.value.value != "" then TypeName(t.kind) + "(" + t.value.value + ")"
    else TypeName(t.kind)
  }

  /** The label `parse_fator` gives an operand leaf: KIND(lexeme), where a
      missing lexeme is written out as None. */
  function OperandLabel(t: Token): string {
    TypeName(t.kind) + "(" + (if t.value.Some? then t.value.value else "None") + ")"
  }

  /** The kind `offset` tokens ahead of `p`, if there is a token there
      (`peek_next_type`). */
  function PeekType(ts: seq<Token>, p: nat, offset: nat): Option<TokenType> {
    if p + offset < |ts| then Some(ts[p + offset].kind) else None
  }

  /** Whether the token after `p` is a ':' (`peek_is_colon`). */
  predicate PeekIsColon(ts: seq<Token>, p: nat) {
    p + 1 < |ts| && ts[p + 1].kind == COLON
  }

  predicate IsRelOp(k: TokenType) {
    k in {GT, LT, GE, LE, EQ, NE}
  }

  /** The kinds that end a command list. */
  predicate EndsCommands(k: TokenType) {
    k in {FIMPROG, FIMBLOCO, FIMDECLS, EOF}
  }

  /** `eat(kind)`: a leaf for the current token if it has that kind. */
  function Expect(ts: seq<Token>, p: nat, kind: TokenType): (r: Result<Parsed, SynErr>)
    requires WellFormed(ts) && p < |ts|
    ensures r.Ok? <==> ts[p].kind == kind
    ensures r.Ok? ==> r.value == Parsed(Node(LeafLabel(ts[p]), []), NextIndex(ts, p))
    ensures r.Err? ==> r.error == SynErr(Expected(kind, ts[p].kind), ts[p])
    ensures r.Ok? && kind != EOF ==> r.value.next == p + 1 < |ts|
  {
    if ts[p].kind == kind then Ok(Parsed(Node(LeafLabel(ts[p]), []), NextIndex(ts, p)))
    else Err(SynErr(Expected(kind, ts[p].kind), ts[p]))
  }

  // ---------------------------------------------------------------------
  // Program and declarations

  /** `parse_programa`: the fixed sequence of structural keywords around the
      declarations and the commands. */
  function Programa(ts: seq<Token>, p: nat): (r: Result<Parsed, SynErr>)
    requires WellFormed(ts) && p < |ts|
    ensures r.Ok? ==> p < r.value.next < |ts|
  {
    var inicio :- Expect(ts, p, INICIO);
    var decls :- Expect(ts, inicio.next, DECLS);
    var ds :- Decls(ts, decls.next);
    var rest :- Codigo(ts, ds.next);
    Ok(Parsed(Node("Programa", [inicio.node, decls.node, ds.node] + rest.nodes), rest.next))
  }

  /** The last four steps of `parse_programa`, FIMDECLS CODIGO commands
      FIMPROG, giving the last four children of the `Programa` node. */
  function Codigo(ts: seq<Token>, p: nat): (r: Result<ParsedList, SynErr>)
    requires WellFormed(ts) && p < |ts|
    ensures r.Ok? ==> p < r.value.next < |ts| && |r.value.nodes| == 4
  {
    var fimdecls :- Expect(ts, p, FIMDECLS);
    var codigo :- Expect(ts, fimdecls.next, CODIGO);
    var cs :- Comandos(ts, codigo.next);
    var fimprog :- Expect(ts, cs.next, FIMPROG);
    Ok(ParsedList([fimdecls.node, codigo.node, cs.node, fimprog.node], fimprog.next))
  }

  /** `parse_decls`: declarations up to FIMDECLS or the end marker. */
  function Decls(ts: seq<Token>, p: nat): (r: Result<Parsed, SynErr>)
    requires WellFormed(ts) && p < |ts|
    ensures r.Ok? ==> p <= r.value.next < |ts|
  {
    var ds :- DeclList(ts, p);
    Ok(Parsed(Node("Decls", ds.nodes), ds.next))
  }

  /** The loop of `parse_decls`. */
  function DeclList(ts: seq<Token>, p: nat): (r: Result<ParsedList, SynErr>)
    requires WellFormed(ts) && p < |ts|
    ensures r.Ok? ==> p <= r.value.next < |ts| && ts[r.value.next].kind in {FIMDECLS, EOF}
    decreases |ts| - p
  {
    if ts[p].kind in {FIMDECLS, EOF} then Ok(ParsedList([], p))
    else if ts[p].kind == IDENTIFIER && PeekIsColon(ts, p) then
      var d :- Decl(ts, p);
      var rest :- DeclList(ts, d.next);
      Ok(ParsedList([d.node] + rest.nodes, rest.next))
    else Err(SynErr(DeclarationExpected, ts[p]))
  }

  /** `parse_decl`: name ':' INT or FLOAT. */
  function Decl(ts: seq<Token>, p: nat): (r: Result<Parsed, SynErr>)
    requires WellFormed(ts) && p < |ts|
    ensures r.Ok? ==> r.value.next == p + 3 < |ts|
  {
    var name :- Expect(ts, p, IDENTIFIER);
    var colon :- Expect(ts, name.next, COLON);
    var q := colon.next;
    if ts[q].kind in {INT, FLOAT} then
      var ty := Expect(ts, q, ts[q].kind).value;
      Ok(Parsed(Node("Decl", [name.node, colon.node, ty.node]), ty.next))
    else Err(SynErr(TypeExpected, ts[q]))
  }

  // ---------------------------------------------------------------------
  // Commands

  /** `parse_comandos`: commands up to a token that ends the list. */
  function Comandos(ts: seq<Token>, p: nat): (r: Result<Parsed, SynErr>)
    requires WellFormed(ts) && p < |ts|
    ensures r.Ok? ==> p <= r.value.next < |ts| && EndsCommands(ts[r.value.next].kind)
    decreases |ts| - p, 8
  {
    var cs :- CommandList(ts, p);
    Ok(Parsed(Node("Comandos", cs.nodes), cs.next))
  }

  /** The loop of `parse_comandos`. */
  function CommandList(ts: seq<Token>, p: nat): (r: Result<ParsedList, SynErr>)
    requires WellFormed(ts) && p < |ts|
    ensures r.Ok? ==> p <= r.value.next < |ts| && EndsCommands(ts[r.value.next].kind)
    decreases |ts| - p, 7
  {
    if EndsCommands(ts[p].kind) then Ok(ParsedList([], p))
    else
      var c :- Comando(ts, p);
      var rest :- CommandList(ts, c.next);
      Ok(ParsedList([c.node] + rest.nodes, rest.next))
  }

  /** `parse_comando`: LEIA, ESCREVA, SE or an assignment. */
  function Comando(ts: seq<Token>, p: nat): (r: Result<Parsed, SynErr>)
    requires WellFormed(ts) && p < |ts|
    ensures r.Ok? ==> p < r.value.next < |ts|
    decreases |ts| - p, 6
  {
    var t := ts[p];
    if t.kind == LEIA then
      var leia := Expect(ts, p, LEIA).value;
      var name :- Expect(ts, leia.next, IDENTIFIER);
      Ok(Parsed(Node("Comando", [leia.node, name.node]), name.next))
    else if t.kind == ESCREVA then
      var escreva := Expect(ts, p, ESCREVA).value;
      var open :- Expect(ts, escreva.next, LPAREN);
      var q := open.next;
      if ts[q].kind in {IDENTIFIER, NUMBER} then
        var arg :- Expect(ts, q, ts[q].kind);
        var close :- Expect(ts, arg.next, RPAREN);
        Ok(Parsed(Node("Comando", [escreva.node, open.node, arg.node, close.node]), close.next))
      else Err(SynErr(WriteArgumentExpected, ts[q]))
    else if t.kind == SE then
      var c :- Condicional(ts, p);
      Ok(Parsed(Node("Comando", [c.node]), c.next))
    else if t.kind == IDENTIFIER then
      if PeekType(ts, p, 1) == Some(ASSIGN) then
        var a :- Atribuicao(ts, p);
        Ok(Parsed(Node("Comando", [a.node]), a.next))
      else Err(SynErr(AssignExpected(PeekType(ts, p, 1)), t))
    else Err(SynErr(InvalidCommand, t))
  }

  /** `parse_atribuicao`: name '=' expression. */
  function Atribuicao(ts: seq<Token>, p: nat): (r: Result<Parsed, SynErr>)
    requires WellFormed(ts) && p < |ts|
    ensures r.Ok? ==> p < r.value.next < |ts|
    decreases |ts| - p, 5
  {
    var name :- Expect(ts, p, IDENTIFIER);
    var assign :- Expect(ts, name.next, ASSIGN);
    var e :- ExpressaoLogica(ts, assign.next);
    Ok(Parsed(Node("Atribuicao", [name.node, assign.node, e.node]), e.next))
  }

  /** `parse_if`: SE condition ENTAO BLOCO commands FIMBLOCO. */
  function Condicional(ts: seq<Token>, p: nat): (r: Result<Parsed, SynErr>)
    requires WellFormed(ts) && p < |ts|
    ensures r.Ok? ==> p < r.value.next < |ts|
    decreases |ts| - p, 5
  {
    var se :- Expect(ts, p, SE);
    var cond :- ExpressaoLogica(ts, se.next);
    var entao :- Expect(ts, cond.next, ENTAO);
    var rest :- Bloco(ts, entao.next);
    Ok(Parsed(Node("Condicional", [se.node, cond.node, entao.node] + rest.nodes), rest.next))
  }

  /** The last three steps of `parse_if`, BLOCO commands FIMBLOCO, giving
      the last three children of the `Condicional` node. */
  function Bloco(ts: seq<Token>, p: nat): (r: Result<ParsedList, SynErr>)
    requires WellFormed(ts) && p < |ts|
    ensures r.Ok? ==> p < r.value.next < |ts| && |r.value.nodes| == 3
    decreases |ts| - p, 5
  {
    var bloco :- Expect(ts, p, BLOCO);
    var body :- Comandos(ts, bloco.next);
    var fim :- Expect(ts, body.next, FIMBLOCO);
    Ok(ParsedList([bloco.node, body.node, fim.node], fim.next))
  }

  // ---------------------------------------------------------------------
  // Expressions, from the loosest level to the tightest

  /** `parse_expressao_logica`: relational expressions joined by E / OU. */
  function ExpressaoLogica(ts: seq<Token>, p: nat): (r: Result<Parsed, SynErr>)
    requires WellFormed(ts) && p < |ts|
    ensures r.Ok? ==> p < r.value.next < |ts|
    decreases |ts| - p, 4
  {
    var first :- ExpressaoRelacional(ts, p);
    var chain :- LogicaLoop(ts, first.next, first.node);
    Ok(Parsed(Node("ExpressaoLogica", [chain.node]), chain.next))
  }

  /** The loop of `parse_expressao_logica`: `left` is the single child so
      far; each operator takes it as its left operand. */
  function LogicaLoop(ts: seq<Token>, p: nat, left: Node): (r: Result<Parsed, SynErr>)
    requires WellFormed(ts) && p < |ts|
    ensures r.Ok? ==> p <= r.value.next < |ts|
    decreases |ts| - p, 0
  {
    var t := ts[p];
    if t.kind in {E, OU} then
      var right :- ExpressaoRelacional(ts, NextIndex(ts, p));
      LogicaLoop(ts, right.next, Node(TypeName(t.kind), [left, right.node]))
    else Ok(Parsed(left, p))
  }

  /** `parse_expressao_relacional`: at most one relational operator. */
  function ExpressaoRelacional(ts: seq<Token>, p: nat): (r: Result<Parsed, SynErr>)
    requires WellFormed(ts) && p < |ts|
    ensures r.Ok? ==> p < r.value.next < |ts|
    decreases |ts| - p, 3
  {
    var left :- ExpressaoAritmetica(ts, p);
    var t := ts[left.next];
    if IsRelOp(t.kind) then
      var right :- ExpressaoAritmetica(ts, NextIndex(ts, left.next));
      Ok(Parsed(Node("ExpressaoRelacional", [Node(Lexeme(t), [left.node, right.node])]), right.next))
    else Ok(Parsed(Node("ExpressaoRelacional", [left.node]), left.next))
  }

  /** `parse_expressao_aritmetica`: terms joined by '+' / '-'. */
  function ExpressaoAritmetica(ts: seq<Token>, p: nat): (r: Result<Parsed, SynErr>)
    requires WellFormed(ts) && p < |ts|
    ensures r.Ok? ==> p < r.value.next < |ts|
    decreases |ts| - p, 2
  {
    var first :- Termo(ts, p);
    var chain :- AritmeticaLoop(ts, first.next, first.node);
    Ok(Parsed(Node("ExpressaoAritmetica", [chain.node]), chain.next))
  }

  /** The loop of `parse_expressao_aritmetica`. */
  function AritmeticaLoop(ts: seq<Token>, p: nat, left: Node): (r: Result<Parsed, SynErr>)
    requires WellFormed(ts) && p < |ts|
    ensures r.Ok? ==> p <= r.value.next < |ts|
    decreases |ts| - p, 0
  {
    var t := ts[p];
    if t.kind in {PLUS, MINUS} then
      var right :- Termo(ts, NextIndex(ts, p));
      AritmeticaLoop(ts, right.next, Node(Lexeme(t), [left, right.node]))
    else Ok(Parsed(left, p))
  }

  /** `parse_termo`: factors joined by '*' / '/'. */
  function Termo(ts: seq<Token>, p: nat): (r: Result<Parsed, SynErr>)
    requires WellFormed(ts) && p < |ts|
    ensures r.Ok? ==> p < r.value.next < |ts|
    decreases |ts| - p, 1
  {
    var first :- Fator(ts, p);
    var chain :- TermoLoop(ts, first.next, first.node);
    Ok(Parsed(Node("Termo", [chain.node]), chain.next))
  }

  /** The loop of `parse_termo`. */
  function TermoLoop(ts: seq<Token>, p: nat, left: Node): (r: Result<Parsed, SynErr>)
    requires WellFormed(ts) && p < |ts|
    ensures r.Ok? ==> p <= r.value.next < |ts|
    decreases |ts| - p, 0
  {
    var t := ts[p];
    if t.kind in {MUL, DIV} then
      var right :- Fator(ts, NextIndex(ts, p));
      TermoLoop(ts, right.next, Node(Lexeme(t), [left, right.node]))
    else Ok(Parsed(left, p))
  }

  /** `parse_fator`: a number, an identifier or a parenthesised expression. */
  function Fator(ts: seq<Token>, p: nat): (r: Result<Parsed, SynErr>)
    requires WellFormed(ts) && p < |ts|
    ensures r.Ok? ==> p < r.value.next < |ts|
    decreases |ts| - p, 0
  {
    var t := ts[p];
    if t.kind in {NUMBER, IDENTIFIER} then Ok(Parsed(Node(OperandLabel(t), []), NextIndex(ts, p)))
    else if t.kind == LPAREN then
      var open := Expect(ts, p, LPAREN).value;
      var e :- ExpressaoLogica(ts, open.next);
      var close :- Expect(ts, e.next, RPAREN);
      Ok(Parsed(Node("Group", [open.node, e.node, close.node]), close.next))
    else Err(SynErr(UnexpectedFactor, t))
  }
}
