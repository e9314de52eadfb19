/** Properties of the reference parser ParseSpec: the shape of the trees each
    rule builds, the faults each rule reports, and the associativity and
    precedence the expression levels give. */
module ParseProps {
  import opened Wrappers
  import opened Tokens
  import opened ParseSpec

  /** The leaf `eat` builds for a token. */
  function Leaf(t: Token): Node {
    Node(LeafLabel(t), [])
  }

  /** The cursor never moves back and moves by at most one token, staying on the list. */
  lemma NextIndexBounds(ts: seq<Token>, p: nat)
    ensures p <= NextIndex(ts, p) <= p + 1
    ensures p < |ts| ==> NextIndex(ts, p) < |ts|
  {
  }

  /** Looking ahead answers the type of the token `offset` places on, or nothing past the end. */
  lemma PeekTypeShape(ts: seq<Token>, p: nat, offset: nat)
    ensures PeekType(ts, p, offset).Some? <==> p + offset < |ts|
    ensures p + offset < |ts| ==> PeekType(ts, p, offset).value == ts[p + offset].kind
  {
  }

  /** The label `eat` gives a leaf starts with the kind's name, and carries
      the lexeme in parentheses exactly when the token has a non-empty one. */
  lemma LeafLabelShape(t: Token)
    ensures TypeName(t.kind) <= LeafLabel(t)
    ensures t.value.Some? && t.value.value != "" ==>
      LeafLabel(t)[|TypeName(t.kind)|..] == "(" + t.value.value + ")"
    ensures !(t.value.Some? && t.value.value != "") ==> LeafLabel(t) == TypeName(t.kind)
  {
  }

  // ---------------------------------------------------------------------
  // The cursor

  /** `advance` never leaves the list, moves exactly one token on every
      token but the end marker, and stays on the end marker. */
  lemma AdvanceInBounds(ts: seq<Token>, p: nat)
    requires WellFormed(ts) && p < |ts|
    ensures NextIndex(ts, p) < |ts|
    ensures ts[p].kind != EOF ==> NextIndex(ts, p) == p + 1
    ensures ts[p].kind == EOF ==> NextIndex(ts, p) == p
  {
  }

  // ---------------------------------------------------------------------
  // Program

  /** A parsed program is a `Programa` node with the seven children of its
      fixed structure, in order: INICIO, DECLS, the declarations, FIMDECLS,
      CODIGO, the commands, FIMPROG. */
  lemma ProgramaShape(ts: seq<Token>) returns (d: nat, c: nat)
    requires WellFormed(ts) && Programa(ts, 0).Ok?
    ensures 2 <= d && d + 2 <= c && c + 1 < |ts|
    ensures ts[0].kind == INICIO && ts[1].kind == DECLS &&
            ts[d].kind == FIMDECLS && ts[d + 1].kind == CODIGO && ts[c].kind == FIMPROG
    ensures Decls(ts, 2).Ok? && Decls(ts, 2).value.next == d
    ensures Comandos(ts, d + 2).Ok? && Comandos(ts, d + 2).value.next == c
    ensures Programa(ts, 0).value ==
            Parsed(Node("Programa", [Leaf(ts[0]), Leaf(ts[1]), Decls(ts, 2).value.node,
                                     Leaf(ts[d]), Leaf(ts[d + 1]), Comandos(ts, d + 2).value.node, Leaf(ts[c])]),
                   c + 1)
  {
    d := ProgramaParts(ts);
    c := CodigoShape(ts, d);
    ProgramaJoin(ts, d, Leaf(ts[d]), Leaf(ts[d + 1]), Comandos(ts, d + 2).value.node, Leaf(ts[c]), c + 1);
  }

  /** An accepted program opens with INICIO DECLS and accepted declarations
      ending at `d`, and has an accepted tail from `d`. */
  lemma ProgramaParts(ts: seq<Token>) returns (d: nat)
    requires WellFormed(ts) && Programa(ts, 0).Ok?
    ensures 2 <= d < |ts| && ts[0].kind == INICIO && ts[1].kind == DECLS
    ensures Decls(ts, 2).Ok? && Decls(ts, 2).value.next == d && Codigo(ts, d).Ok?
  {
    assert Expect(ts, 0, INICIO).Ok?;
    assert Expect(ts, 1, DECLS).Ok?;
    assert Decls(ts, 2).Ok?;
    d := Decls(ts, 2).value.next;
  }

  /** The tail of an accepted program: FIMDECLS at `d`, CODIGO, accepted
      commands, then FIMPROG at `c`. */
  lemma CodigoShape(ts: seq<Token>, d: nat) returns (c: nat)
    requires WellFormed(ts) && d < |ts| && Codigo(ts, d).Ok?
    ensures d + 2 <= c && c + 1 < |ts|
    ensures ts[d].kind == FIMDECLS && ts[d + 1].kind == CODIGO && ts[c].kind == FIMPROG
    ensures Comandos(ts, d + 2).Ok? && Comandos(ts, d + 2).value.next == c
    ensures Codigo(ts, d).value ==
            ParsedList([Leaf(ts[d]), Leaf(ts[d + 1]), Comandos(ts, d + 2).value.node, Leaf(ts[c])], c + 1)
  {
    assert Expect(ts, d, FIMDECLS).Ok?;
    assert Expect(ts, d + 1, CODIGO).Ok?;
    assert Comandos(ts, d + 2).Ok?;
    c := Comandos(ts, d + 2).value.next;
    assert Expect(ts, c, FIMPROG).Ok?;
  }

  /** The `Programa` node of an accepted program is its three opening
      children followed by the four of its tail. */
  lemma ProgramaJoin(ts: seq<Token>, d: nat, e: Node, f: Node, g: Node, h: Node, n: nat)
    requires WellFormed(ts) && 2 < |ts| && ts[0].kind == INICIO && ts[1].kind == DECLS
    requires Decls(ts, 2).Ok? && Decls(ts, 2).value.next == d
    requires Codigo(ts, d) == Ok(ParsedList([e, f, g, h], n))
    ensures Programa(ts, 0) ==
            Ok(Parsed(Node("Programa", [Leaf(ts[0]), Leaf(ts[1]), Decls(ts, 2).value.node, e, f, g, h]), n))
  {
    assert Expect(ts, 0, INICIO) == Ok(Parsed(Leaf(ts[0]), 1));
    assert Expect(ts, 1, DECLS) == Ok(Parsed(Leaf(ts[1]), 2));
    SevenChildren(Leaf(ts[0]), Leaf(ts[1]), Decls(ts, 2).value.node, [e, f, g, h]);
  }

  /** Conversely, the structural keywords in place around accepted
      declarations and commands make an accepted program. */
  lemma ProgramaFrom(ts: seq<Token>, d: nat, c: nat)
    requires WellFormed(ts) && 2 <= d && d + 2 <= c && c + 1 < |ts|
    requires ts[0].kind == INICIO && ts[1].kind == DECLS &&
             ts[d].kind == FIMDECLS && ts[d + 1].kind == CODIGO && ts[c].kind == FIMPROG
    requires Decls(ts, 2).Ok? && Decls(ts, 2).value.next == d
    requires Comandos(ts, d + 2).Ok? && Comandos(ts, d + 2).value.next == c
    ensures Programa(ts, 0) ==
            Ok(Parsed(Node("Programa", [Leaf(ts[0]), Leaf(ts[1]), Decls(ts, 2).value.node,
                                        Leaf(ts[d]), Leaf(ts[d + 1]), Comandos(ts, d + 2).value.node, Leaf(ts[c])]),
                      c + 1))
  {
    CodigoFrom(ts, d, c);
    ProgramaJoin(ts, d, Leaf(ts[d]), Leaf(ts[d + 1]), Comandos(ts, d + 2).value.node, Leaf(ts[c]), c + 1);
  }

  lemma SevenChildren(a: Node, b: Node, c: Node, tail: seq<Node>)
    requires |tail| == 4
    ensures [a, b, c] + tail == [a, b, c, tail[0], tail[1], tail[2], tail[3]]
  {
  }

  /** The tail from its parts. */
  lemma CodigoFrom(ts: seq<Token>, d: nat, c: nat)
    requires WellFormed(ts) && d + 2 <= c && c + 1 < |ts|
    requires ts[d].kind == FIMDECLS && ts[d + 1].kind == CODIGO && ts[c].kind == FIMPROG
    requires Comandos(ts, d + 2).Ok? && Comandos(ts, d + 2).value.next == c
    ensures Codigo(ts, d) ==
            Ok(ParsedList([Leaf(ts[d]), Leaf(ts[d + 1]), Comandos(ts, d + 2).value.node, Leaf(ts[c])], c + 1))
  {
    assert Expect(ts, d, FIMDECLS) == Ok(Parsed(Leaf(ts[d]), d + 1));
    assert Expect(ts, d + 1, CODIGO) == Ok(Parsed(Leaf(ts[d + 1]), d + 2));
    assert Expect(ts, c, FIMPROG) == Ok(Parsed(Leaf(ts[c]), c + 1));
  }

  /** The root of an accepted program is a `Programa` node with seven
      children. */
  lemma ProgramaRoot(ts: seq<Token>)
    requires WellFormed(ts) && Programa(ts, 0).Ok?
    ensures Programa(ts, 0).value.node.name == "Programa" && |Programa(ts, 0).value.node.children| == 7
  {
    var d, c := ProgramaShape(ts);
  }

  /** An accepted program runs from the INICIO at the start to the FIMPROG
      just before `next`. */
  lemma ProgramaEnds(ts: seq<Token>)
    requires WellFormed(ts) && Programa(ts, 0).Ok?
    ensures ts[0].kind == INICIO && ts[Programa(ts, 0).value.next - 1].kind == FIMPROG
  {
    var d, c := ProgramaShape(ts);
  }

  /** A program that does not open with INICIO is rejected at its first
      token. */
  lemma ProgramaNeedsInicio(ts: seq<Token>)
    requires WellFormed(ts) && ts[0].kind != INICIO
    ensures Programa(ts, 0) == Err(SynErr(Expected(INICIO, ts[0].kind), ts[0]))
  {
  }

  // ---------------------------------------------------------------------
  // Declarations

  /** An empty declaration section: `parse_decls` at FIMDECLS or the end
      marker builds a `Decls` node without children and consumes nothing. */
  lemma EmptyDecls(ts: seq<Token>, p: nat)
    requires WellFormed(ts) && p < |ts| && ts[p].kind in {FIMDECLS, EOF}
    ensures Decls(ts, p) == Ok(Parsed(Node("Decls", []), p))
  {
    assert DeclList(ts, p) == Ok(ParsedList([], p));
  }

  /** The three tokens of a declaration at `q` and the node built for them. */
  ghost predicate DeclAt(ts: seq<Token>, q: nat, n: Node) {
    q + 3 < |ts| &&
    ts[q].kind == IDENTIFIER && ts[q + 1].kind == COLON && ts[q + 2].kind in {INT, FLOAT} &&
    n == DeclNode(ts[q], ts[q + 1], ts[q + 2])
  }

  /** The node `parse_decl` builds for `name : TYPE`. */
  function DeclNode(name: Token, colon: Token, ty: Token): Node {
    Node("Decl", [Leaf(name), Leaf(colon), Leaf(ty)])
  }

  /** One declaration is three tokens, `name : TYPE`. */
  lemma DeclShape(ts: seq<Token>, p: nat)
    requires WellFormed(ts) && p < |ts| && Decl(ts, p).Ok?
    ensures DeclAt(ts, p, Decl(ts, p).value.node)
  {
  }

  /** One step of the declaration loop. */
  lemma DeclListStep(ts: seq<Token>, p: nat)
    requires WellFormed(ts) && p < |ts| && DeclList(ts, p).Ok? && ts[p].kind !in {FIMDECLS, EOF}
    ensures Decl(ts, p).Ok? && DeclList(ts, Decl(ts, p).value.next).Ok?
    ensures DeclList(ts, p).value ==
            ParsedList([Decl(ts, p).value.node] + DeclList(ts, Decl(ts, p).value.next).value.nodes,
                       DeclList(ts, Decl(ts, p).value.next).value.next)
  {
  }

  /** The nodes are declarations of consecutive triples from `p`. */
  ghost predicate DeclsFrom(ts: seq<Token>, p: nat, nodes: seq<Node>) {
    forall j :: 0 <= j < |nodes| ==> DeclAt(ts, p + 3 * j, nodes[j])
  }

  lemma DeclsCons(ts: seq<Token>, p: nat, n: Node, rest: seq<Node>)
    requires DeclAt(ts, p, n) && DeclsFrom(ts, p + 3, rest)
    ensures DeclsFrom(ts, p, [n] + rest)
  {
    var ns := [n] + rest;
    forall j | 0 <= j < |ns| ensures DeclAt(ts, p + 3 * j, ns[j]) {
      if j > 0 {
        var i := j - 1;
        assert ns[j] == rest[i];
        assert p + 3 * j == (p + 3) + 3 * i;
      }
    }
  }

  /** The declaration list is a run of `name : TYPE` triples, one Decl node
      each, ending at FIMDECLS or the end marker. */
  lemma {:induction false} DeclListShape(ts: seq<Token>, p: nat)
    requires WellFormed(ts) && p < |ts| && DeclList(ts, p).Ok?
    ensures var l := DeclList(ts, p).value;
      l.next == p + 3 * |l.nodes| &&
      ts[l.next].kind in {FIMDECLS, EOF} &&
      DeclsFrom(ts, p, l.nodes)
    decreases |ts| - p
  {
    var l := DeclList(ts, p).value;
    if ts[p].kind !in {FIMDECLS, EOF} {
      DeclListStep(ts, p);
      var d := Decl(ts, p).value;
      DeclShape(ts, p);
      DeclListShape(ts, d.next);
      var rest := DeclList(ts, d.next).value;
      DeclsCons(ts, p, d.node, rest.nodes);
      assert l.next == p + 3 * |l.nodes|;
    } else {
      assert l == ParsedList([], p);
    }
  }

  /** A declaration list that starts with a `name : TYPE` triple. */
  lemma DeclListFromTriple(ts: seq<Token>, p: nat)
    requires WellFormed(ts) && p + 3 < |ts|
    requires ts[p].kind == IDENTIFIER && ts[p + 1].kind == COLON && ts[p + 2].kind in {INT, FLOAT}
    requires DeclList(ts, p + 3).Ok?
    ensures DeclList(ts, p).Ok? && |DeclList(ts, p).value.nodes| == 1 + |DeclList(ts, p + 3).value.nodes|
  {
    assert PeekIsColon(ts, p);
    assert Decl(ts, p).Ok? && Decl(ts, p).value.next == p + 3;
  }

  /** The three tokens of a declaration, `name : TYPE`, at `q`. */
  ghost predicate TripleAt(ts: seq<Token>, q: nat) {
    q + 2 < |ts| && ts[q].kind == IDENTIFIER && ts[q + 1].kind == COLON && ts[q + 2].kind in {INT, FLOAT}
  }

  /** `k` consecutive triples from `p`. */
  ghost predicate TriplesFrom(ts: seq<Token>, p: nat, k: nat) {
    forall j :: 0 <= j < k ==> TripleAt(ts, p + 3 * j)
  }

  lemma TriplesTail(ts: seq<Token>, p: nat, k: nat)
    requires k > 0 && TriplesFrom(ts, p, k)
    ensures TripleAt(ts, p) && TriplesFrom(ts, p + 3, k - 1)
  {
    assert TripleAt(ts, p + 3 * 0);
    forall j | 0 <= j < k - 1 ensures TripleAt(ts, p + 3 + 3 * j) {
      assert TripleAt(ts, p + 3 * (j + 1));
    }
  }

  /** Conversely, `k` well-formed triples followed by FIMDECLS or the end
      marker are accepted as `k` declarations. */
  lemma {:induction false} DeclListComplete(ts: seq<Token>, p: nat, k: nat)
    requires WellFormed(ts) && p + 3 * k < |ts|
    requires TriplesFrom(ts, p, k)
    requires ts[p + 3 * k].kind in {FIMDECLS, EOF}
    ensures DeclList(ts, p).Ok? && |DeclList(ts, p).value.nodes| == k
    decreases k
  {
    if k > 0 {
      TriplesTail(ts, p, k);
      DeclListComplete(ts, p + 3, k - 1);
      DeclListFromTriple(ts, p);
    } else {
      assert DeclList(ts, p) == Ok(ParsedList([], p));
    }
  }

  /** Where a declaration list is rejected: at a token that is neither the
      end of the list nor a name followed by ':', or at a type that is
      neither INT nor FLOAT after `name :`. */
  lemma {:induction false} DeclListFault(ts: seq<Token>, p: nat) returns (q: nat)
    requires WellFormed(ts) && p < |ts| && DeclList(ts, p).Err?
    ensures var e := DeclList(ts, p).error;
      p <= q < |ts| && e.token == ts[q] &&
      ((e.message == DeclarationExpected && ts[q].kind !in {FIMDECLS, EOF} &&
        !(ts[q].kind == IDENTIFIER && PeekIsColon(ts, q))) ||
       (e.message == TypeExpected && p + 2 <= q && ts[q - 2].kind == IDENTIFIER &&
        ts[q - 1].kind == COLON && ts[q].kind !in {INT, FLOAT}))
    decreases |ts| - p
  {
    if ts[p].kind == IDENTIFIER && PeekIsColon(ts, p) {
      if Decl(ts, p).Err? {
        q := p + 2;
      } else {
        q := DeclListFault(ts, Decl(ts, p).value.next);
      }
    } else {
      q := p;
    }
  }

  // ---------------------------------------------------------------------
  // Commands

  /** An empty command section: `parse_comandos` at a token that ends the
      list builds a `Comandos` node without children and consumes nothing. */
  lemma EmptyComandos(ts: seq<Token>, p: nat)
    requires WellFormed(ts) && p < |ts| && EndsCommands(ts[p].kind)
    ensures Comandos(ts, p) == Ok(Parsed(Node("Comandos", []), p))
  {
    assert CommandList(ts, p) == Ok(ParsedList([], p));
  }

  /** A command is a `Comando` node with at least one child. */
  lemma ComandoNode(ts: seq<Token>, p: nat)
    requires WellFormed(ts) && p < |ts| && Comando(ts, p).Ok?
    ensures Comando(ts, p).value.node.name == "Comando" && |Comando(ts, p).value.node.children| > 0
  {
  }

  /** One step of the command loop. */
  lemma CommandListStep(ts: seq<Token>, p: nat)
    requires WellFormed(ts) && p < |ts| && CommandList(ts, p).Ok? && !EndsCommands(ts[p].kind)
    ensures Comando(ts, p).Ok? && CommandList(ts, Comando(ts, p).value.next).Ok?
    ensures CommandList(ts, p).value ==
            ParsedList([Comando(ts, p).value.node] + CommandList(ts, Comando(ts, p).value.next).value.nodes,
                       CommandList(ts, Comando(ts, p).value.next).value.next)
  {
  }

  /** Every element of a command list is a `Comando` node, and the list stops
      only at FIMPROG, FIMBLOCO, FIMDECLS or the end marker. */
  lemma {:induction false} CommandListShape(ts: seq<Token>, p: nat)
    requires WellFormed(ts) && p < |ts| && CommandList(ts, p).Ok?
    ensures var l := CommandList(ts, p).value;
      EndsCommands(ts[l.next].kind) &&
      (forall j :: 0 <= j < |l.nodes| ==> l.nodes[j].name == "Comando" && |l.nodes[j].children| > 0) &&
      (l.nodes == [] <==> EndsCommands(ts[p].kind))
    decreases |ts| - p
  {
    var l := CommandList(ts, p).value;
    if !EndsCommands(ts[p].kind) {
      CommandListStep(ts, p);
      ComandoNode(ts, p);
      var c := Comando(ts, p).value;
      CommandListShape(ts, c.next);
      var rest := CommandList(ts, c.next).value;
      assert l.nodes == [c.node] + rest.nodes;
      forall j | 0 < j < |l.nodes| ensures l.nodes[j] == rest.nodes[j - 1] {
      }
    } else {
      assert l == ParsedList([], p);
    }
  }

  /** `name = expression` is a command holding one assignment node, whose
      children are the name, the '=' and the logical expression. */
  lemma AssignmentCommand(ts: seq<Token>, p: nat)
    requires WellFormed(ts) && p + 2 < |ts| && ts[p].kind == IDENTIFIER && ts[p + 1].kind == ASSIGN
    requires ExpressaoLogica(ts, p + 2).Ok?
    ensures var e := ExpressaoLogica(ts, p + 2).value;
      Comando(ts, p) == Ok(Parsed(Node("Comando", [Node("Atribuicao", [Leaf(ts[p]), Leaf(ts[p + 1]), e.node])]), e.next))
  {
    var e := ExpressaoLogica(ts, p + 2).value;
    assert Atribuicao(ts, p) == Ok(Parsed(Node("Atribuicao", [Leaf(ts[p]), Leaf(ts[p + 1]), e.node]), e.next));
  }

  /** The faults of `parse_comando`, one lemma each: a token that starts no
      command, an identifier not followed by '=' (reporting what follows
      it), and an ESCREVA argument that is neither a name nor a number. */
  lemma InvalidCommandFault(ts: seq<Token>, p: nat)
    requires WellFormed(ts) && p < |ts| && ts[p].kind !in {LEIA, ESCREVA, SE, IDENTIFIER}
    ensures Comando(ts, p) == Err(SynErr(InvalidCommand, ts[p]))
  {
  }

  lemma AssignExpectedFault(ts: seq<Token>, p: nat)
    requires WellFormed(ts) && p < |ts| && ts[p].kind == IDENTIFIER && PeekType(ts, p, 1) != Some(ASSIGN)
    ensures Comando(ts, p) == Err(SynErr(AssignExpected(PeekType(ts, p, 1)), ts[p]))
  {
  }

  lemma WriteArgumentFault(ts: seq<Token>, p: nat)
    requires WellFormed(ts) && p + 2 < |ts| && ts[p].kind == ESCREVA && ts[p + 1].kind == LPAREN
    requires ts[p + 2].kind !in {IDENTIFIER, NUMBER}
    ensures Comando(ts, p) == Err(SynErr(WriteArgumentExpected, ts[p + 2]))
  {
  }

  /** LEIA and a name, and only that, make an accepted read command: its
      node holds the two leaves, and parsing resumes after the name. */
  ghost predicate ReadAt(ts: seq<Token>, p: nat) {
    p + 1 < |ts| && ts[p].kind == LEIA && ts[p + 1].kind == IDENTIFIER
  }

  lemma ReadCommand(ts: seq<Token>, p: nat)
    requires WellFormed(ts) && p < |ts| && ts[p].kind == LEIA
    ensures Comando(ts, p).Ok? <==> ReadAt(ts, p)
    ensures ReadAt(ts, p) ==> Comando(ts, p) == Ok(Parsed(Node("Comando", [Leaf(ts[p]), Leaf(ts[p + 1])]), p + 2))
  {
  }

  /** A read command whose second token is not a name fails there. */
  lemma ReadNameFault(ts: seq<Token>, p: nat)
    requires WellFormed(ts) && p + 1 < |ts| && ts[p].kind == LEIA && ts[p + 1].kind != IDENTIFIER
    ensures Comando(ts, p) == Err(SynErr(Expected(IDENTIFIER, ts[p + 1].kind), ts[p + 1]))
  {
  }

  /** ESCREVA '(' name-or-number ')', and only that, makes an accepted write
      command: its node holds the four leaves, and parsing resumes after ')'. */
  ghost predicate WriteAt(ts: seq<Token>, p: nat) {
    p + 3 < |ts| && ts[p].kind == ESCREVA && ts[p + 1].kind == LPAREN &&
    ts[p + 2].kind in {IDENTIFIER, NUMBER} && ts[p + 3].kind == RPAREN
  }

  lemma WriteCommand(ts: seq<Token>, p: nat)
    requires WellFormed(ts) && p < |ts| && ts[p].kind == ESCREVA
    ensures Comando(ts, p).Ok? <==> WriteAt(ts, p)
    ensures WriteAt(ts, p) ==>
      Comando(ts, p) == Ok(Parsed(Node("Comando", [Leaf(ts[p]), Leaf(ts[p + 1]), Leaf(ts[p + 2]), Leaf(ts[p + 3])]), p + 4))
  {
  }

  /** A write command without its '(' fails at the token in its place. */
  lemma WriteOpenFault(ts: seq<Token>, p: nat)
    requires WellFormed(ts) && p + 1 < |ts| && ts[p].kind == ESCREVA && ts[p + 1].kind != LPAREN
    ensures Comando(ts, p) == Err(SynErr(Expected(LPAREN, ts[p + 1].kind), ts[p + 1]))
  {
  }

  /** A write command whose argument is not followed by ')' fails at the
      token in its place. */
  lemma WriteCloseFault(ts: seq<Token>, p: nat)
    requires WellFormed(ts) && p + 3 < |ts| && ts[p].kind == ESCREVA && ts[p + 1].kind == LPAREN
    requires ts[p + 2].kind in {IDENTIFIER, NUMBER} && ts[p + 3].kind != RPAREN
    ensures Comando(ts, p) == Err(SynErr(Expected(RPAREN, ts[p + 3].kind), ts[p + 3]))
  {
  }

  /** A command that starts with SE is exactly one accepted conditional. */
  lemma ConditionalCommand(ts: seq<Token>, p: nat)
    requires WellFormed(ts) && p < |ts| && ts[p].kind == SE
    ensures Comando(ts, p).Ok? <==> Condicional(ts, p).Ok?
    ensures Condicional(ts, p).Ok? ==>
      Comando(ts, p) == Ok(Parsed(Node("Comando", [Condicional(ts, p).value.node]), Condicional(ts, p).value.next))
  {
  }

  /** An accepted conditional is a `Condicional` node with the six children
      of `parse_if`, in order: SE, the condition, ENTAO at `e`, BLOCO at
      `b == e + 1`, the commands and FIMBLOCO at `f`, and parsing resumes
      just after FIMBLOCO. */
  lemma ConditionalShape(ts: seq<Token>, p: nat) returns (e: nat, b: nat, f: nat, cond: Node, body: Node)
    requires WellFormed(ts) && p < |ts| && Condicional(ts, p).Ok?
    ensures p + 1 < e && b == e + 1 && b < f && f + 1 < |ts|
    ensures ts[p].kind == SE && ts[e].kind == ENTAO && ts[b].kind == BLOCO && ts[f].kind == FIMBLOCO
    ensures ExpressaoLogica(ts, p + 1) == Ok(Parsed(cond, e))
    ensures Comandos(ts, b + 1) == Ok(Parsed(body, f))
    ensures Condicional(ts, p) ==
            Ok(Parsed(Node("Condicional", [Leaf(ts[p]), cond, Leaf(ts[e]), Leaf(ts[b]), body, Leaf(ts[f])]), f + 1))
  {
    var rest;
    e, b, cond, rest := ConditionalParts(ts, p);
    f, body := BlocoShape(ts, b);
    SixChildren(Leaf(ts[p]), cond, Leaf(ts[e]), rest.nodes);
  }

  /** An accepted conditional opens with SE, an accepted condition ending at
      `e` and ENTAO there, and takes its last three children from the
      accepted block at `b`. */
  lemma ConditionalParts(ts: seq<Token>, p: nat) returns (e: nat, b: nat, cond: Node, rest: ParsedList)
    requires WellFormed(ts) && p < |ts| && Condicional(ts, p).Ok?
    ensures p + 1 < e && b == e + 1 < |ts| && ts[p].kind == SE && ts[e].kind == ENTAO
    ensures ExpressaoLogica(ts, p + 1) == Ok(Parsed(cond, e)) && Bloco(ts, b) == Ok(rest)
    ensures Condicional(ts, p) == Ok(Parsed(Node("Condicional", [Leaf(ts[p]), cond, Leaf(ts[e])] + rest.nodes), rest.next))
  {
    assert Expect(ts, p, SE).Ok?;
    assert ExpressaoLogica(ts, p + 1).Ok?;
    e, cond := ExpressaoLogica(ts, p + 1).value.next, ExpressaoLogica(ts, p + 1).value.node;
    assert Expect(ts, e, ENTAO).Ok?;
    b := e + 1;
    rest := Bloco(ts, b).value;
  }

  /** The block of an accepted conditional: BLOCO at `b`, accepted commands,
      then FIMBLOCO at `f`. */
  lemma BlocoShape(ts: seq<Token>, b: nat) returns (f: nat, body: Node)
    requires WellFormed(ts) && b < |ts| && Bloco(ts, b).Ok?
    ensures b + 1 <= f && f + 1 < |ts|
    ensures ts[b].kind == BLOCO && ts[f].kind == FIMBLOCO
    ensures Comandos(ts, b + 1) == Ok(Parsed(body, f))
    ensures Bloco(ts, b) == Ok(ParsedList([Leaf(ts[b]), body, Leaf(ts[f])], f + 1))
  {
    assert Expect(ts, b, BLOCO).Ok?;
    assert Comandos(ts, b + 1).Ok?;
    f, body := Comandos(ts, b + 1).value.next, Comandos(ts, b + 1).value.node;
    assert Expect(ts, f, FIMBLOCO).Ok?;
  }

  /** The `Condicional` node is its three opening children followed by the
      three of its block. */
  lemma ConditionalJoin(ts: seq<Token>, p: nat, e: nat, cond: Node, g: Node, h: Node, k: Node, n: nat)
    requires WellFormed(ts) && p + 1 < e && e + 1 < |ts| && ts[p].kind == SE && ts[e].kind == ENTAO
    requires ExpressaoLogica(ts, p + 1) == Ok(Parsed(cond, e))
    requires Bloco(ts, e + 1) == Ok(ParsedList([g, h, k], n))
    ensures Condicional(ts, p) == Ok(Parsed(Node("Condicional", [Leaf(ts[p]), cond, Leaf(ts[e]), g, h, k]), n))
  {
    SixChildren(Leaf(ts[p]), cond, Leaf(ts[e]), [g, h, k]);
  }

  lemma SixChildren(a: Node, b: Node, c: Node, tail: seq<Node>)
    requires |tail| == 3
    ensures [a, b, c] + tail == [a, b, c, tail[0], tail[1], tail[2]]
  {
  }

  /** Conversely, SE, an accepted condition, ENTAO, BLOCO, accepted commands
      and FIMBLOCO make an accepted conditional. */
  lemma ConditionalFrom(ts: seq<Token>, p: nat, e: nat, b: nat, f: nat)
    requires WellFormed(ts) && p + 1 < e && b == e + 1 && b < f && f + 1 < |ts|
    requires ts[p].kind == SE && ts[e].kind == ENTAO && ts[b].kind == BLOCO && ts[f].kind == FIMBLOCO
    requires ExpressaoLogica(ts, p + 1).Ok? && ExpressaoLogica(ts, p + 1).value.next == e
    requires Comandos(ts, b + 1).Ok? && Comandos(ts, b + 1).value.next == f
    ensures Condicional(ts, p) ==
            Ok(Parsed(Node("Condicional", [Leaf(ts[p]), ExpressaoLogica(ts, p + 1).value.node, Leaf(ts[e]),
                                           Leaf(ts[b]), Comandos(ts, b + 1).value.node, Leaf(ts[f])]),
                      f + 1))
  {
    BlocoFrom(ts, b, f);
    ConditionalJoin(ts, p, e, ExpressaoLogica(ts, p + 1).value.node,
                    Leaf(ts[b]), Comandos(ts, b + 1).value.node, Leaf(ts[f]), f + 1);
  }

  /** The block from its parts. */
  lemma BlocoFrom(ts: seq<Token>, b: nat, f: nat)
    requires WellFormed(ts) && b + 1 <= f && f + 1 < |ts|
    requires ts[b].kind == BLOCO && ts[f].kind == FIMBLOCO
    requires Comandos(ts, b + 1).Ok? && Comandos(ts, b + 1).value.next == f
    ensures Bloco(ts, b) == Ok(ParsedList([Leaf(ts[b]), Comandos(ts, b + 1).value.node, Leaf(ts[f])], f + 1))
  {
    assert Expect(ts, b, BLOCO) == Ok(Parsed(Leaf(ts[b]), b + 1));
    assert Expect(ts, f, FIMBLOCO) == Ok(Parsed(Leaf(ts[f]), f + 1));
  }

  // ---------------------------------------------------------------------
  // Expressions: left-associative operator chains

  /** `n` is `base` under zero or more E / OU operators, each of which has a
      relational expression as its right operand. */
  ghost predicate LogicChain(n: Node, base: Node)
    decreases n
  {
    n == base ||
    (n.name in {"E", "OU"} && |n.children| == 2 && n.children[1].name == "ExpressaoRelacional" &&
     LogicChain(n.children[0], base))
  }

  /** The same for '+' / '-' over terms. */
  ghost predicate SumChain(n: Node, base: Node)
    decreases n
  {
    n == base ||
    (n.name in {"+", "-"} && |n.children| == 2 && n.children[1].name == "Termo" &&
     SumChain(n.children[0], base))
  }

  /** A node `parse_fator` builds: an operand leaf or a parenthesised group. */
  ghost predicate IsFactorNode(n: Node) {
    (n.name == "Group" && |n.children| == 3 && n.children[1].name == "ExpressaoLogica") ||
    (n.children == [] && exists t: Token :: t.kind in {NUMBER, IDENTIFIER} && n.name == OperandLabel(t))
  }

  /** The same for '*' / '/' over factors. */
  ghost predicate ProductChain(n: Node, base: Node)
    decreases n
  {
    n == base ||
    (n.name in {"*", "/"} && |n.children| == 2 && IsFactorNode(n.children[1]) &&
     ProductChain(n.children[0], base))
  }

  lemma FatorIsFactorNode(ts: seq<Token>, p: nat)
    requires WellFormed(ts) && p < |ts| && Fator(ts, p).Ok?
    ensures IsFactorNode(Fator(ts, p).value.node)
  {
    if ts[p].kind in {NUMBER, IDENTIFIER} {
      assert Fator(ts, p).value.node.name == OperandLabel(ts[p]);
    }
  }

  /** The E / OU loop only ever extends the chain on the left. */
  lemma {:induction false} LogicaLoopChain(ts: seq<Token>, p: nat, left: Node)
    requires WellFormed(ts) && p < |ts| && LogicaLoop(ts, p, left).Ok?
    ensures LogicChain(LogicaLoop(ts, p, left).value.node, left)
    decreases |ts| - p
  {
    var t := ts[p];
    if t.kind in {E, OU} {
      var right := ExpressaoRelacional(ts, NextIndex(ts, p)).value;
      var joined := Node(TypeName(t.kind), [left, right.node]);
      LogicaLoopChain(ts, right.next, joined);
      LogicChainExtends(LogicaLoop(ts, p, left).value.node, joined, left);
    }
  }

  lemma {:induction false} LogicChainExtends(n: Node, mid: Node, base: Node)
    requires LogicChain(n, mid)
    requires mid.name in {"E", "OU"} && |mid.children| == 2 &&
             mid.children[1].name == "ExpressaoRelacional" && mid.children[0] == base
    ensures LogicChain(n, base)
    decreases n
  {
    if n != mid {
      LogicChainExtends(n.children[0], mid, base);
    }
  }

  lemma {:induction false} SumChainExtends(n: Node, mid: Node, base: Node)
    requires SumChain(n, mid)
    requires mid.name in {"+", "-"} && |mid.children| == 2 &&
             mid.children[1].name == "Termo" && mid.children[0] == base
    ensures SumChain(n, base)
    decreases n
  {
    if n != mid {
      SumChainExtends(n.children[0], mid, base);
    }
  }

  lemma {:induction false} ProductChainExtends(n: Node, mid: Node, base: Node)
    requires ProductChain(n, mid)
    requires mid.name in {"*", "/"} && |mid.children| == 2 &&
             IsFactorNode(mid.children[1]) && mid.children[0] == base
    ensures ProductChain(n, base)
    decreases n
  {
    if n != mid {
      ProductChainExtends(n.children[0], mid, base);
    }
  }

  /** The '+' / '-' loop only ever extends the chain on the left. */
  lemma {:induction false} AritmeticaLoopChain(ts: seq<Token>, p: nat, left: Node)
    requires WellFormed(ts) && Spelled(ts) && p < |ts| && AritmeticaLoop(ts, p, left).Ok?
    ensures SumChain(AritmeticaLoop(ts, p, left).value.node, left)
    decreases |ts| - p
  {
    var t := ts[p];
    if t.kind in {PLUS, MINUS} {
      var right := Termo(ts, NextIndex(ts, p)).value;
      var joined := Node(Lexeme(t), [left, right.node]);
      AritmeticaLoopChain(ts, right.next, joined);
      SumChainExtends(AritmeticaLoop(ts, p, left).value.node, joined, left);
    }
  }

  /** The '*' / '/' loop only ever extends the chain on the left. */
  lemma {:induction false} TermoLoopChain(ts: seq<Token>, p: nat, left: Node)
    requires WellFormed(ts) && Spelled(ts) && p < |ts| && TermoLoop(ts, p, left).Ok?
    ensures ProductChain(TermoLoop(ts, p, left).value.node, left)
    decreases |ts| - p
  {
    var t := ts[p];
    if t.kind in {MUL, DIV} {
      TermoLoopStep(ts, p, left);
      var right := Fator(ts, NextIndex(ts, p)).value;
      FatorIsFactorNode(ts, NextIndex(ts, p));
      var joined := Node(Lexeme(t), [left, right.node]);
      TermoLoopChain(ts, right.next, joined);
      ProductChainExtends(TermoLoop(ts, p, left).value.node, joined, left);
    }
  }

  /** One turn of the '*' / '/' loop, with the operator's fixed lexeme. */
  lemma TermoLoopStep(ts: seq<Token>, p: nat, left: Node)
    requires WellFormed(ts) && Spelled(ts) && p < |ts| && TermoLoop(ts, p, left).Ok?
    requires ts[p].kind in {MUL, DIV}
    ensures Lexeme(ts[p]) in {"*", "/"}
    ensures Fator(ts, NextIndex(ts, p)).Ok?
    ensures var right := Fator(ts, NextIndex(ts, p)).value;
      TermoLoop(ts, p, left) == TermoLoop(ts, right.next, Node(Lexeme(ts[p]), [left, right.node]))
  {
    assert ts[p].value == Spelling(ts[p].kind);
  }

  /** A logical expression has a single child: its first relational
      expression under a left-leaning chain of E / OU. */
  lemma ExpressaoLogicaShape(ts: seq<Token>, p: nat)
    requires WellFormed(ts) && p < |ts| && ExpressaoLogica(ts, p).Ok?
    ensures var n := ExpressaoLogica(ts, p).value.node;
      n.name == "ExpressaoLogica" && |n.children| == 1 &&
      LogicChain(n.children[0], ExpressaoRelacional(ts, p).value.node)
  {
    var first := ExpressaoRelacional(ts, p).value;
    LogicaLoopChain(ts, first.next, first.node);
  }

  /** An arithmetic expression has a single child: its first term under a
      left-leaning chain of '+' / '-', so a - b - c groups as (a - b) - c. */
  lemma ExpressaoAritmeticaShape(ts: seq<Token>, p: nat)
    requires WellFormed(ts) && Spelled(ts) && p < |ts| && ExpressaoAritmetica(ts, p).Ok?
    ensures var n := ExpressaoAritmetica(ts, p).value.node;
      n.name == "ExpressaoAritmetica" && |n.children| == 1 &&
      SumChain(n.children[0], Termo(ts, p).value.node) &&
      Termo(ts, p).value.node.name == "Termo"
  {
    var first := Termo(ts, p).value;
    AritmeticaLoopChain(ts, first.next, first.node);
  }

  /** A term has a single child: its first factor under a left-leaning chain
      of '*' / '/', whose right operands are all factors. */
  lemma TermoShape(ts: seq<Token>, p: nat)
    requires WellFormed(ts) && Spelled(ts) && p < |ts| && Termo(ts, p).Ok?
    ensures var n := Termo(ts, p).value.node;
      n.name == "Termo" && |n.children| == 1 &&
      ProductChain(n.children[0], Fator(ts, p).value.node) &&
      IsFactorNode(Fator(ts, p).value.node)
  {
    var first := Fator(ts, p).value;
    FatorIsFactorNode(ts, p);
    TermoLoopChain(ts, first.next, first.node);
  }

  // ---------------------------------------------------------------------
  // The relational level

  /** A relational expression holds at most one relational operator, whose
      two operands are arithmetic expressions; a relational operator is
      left unconsumed only after one has been taken, so a < b < c stops
      before the second '<'. */
  lemma RelationalAtMostOne(ts: seq<Token>, p: nat)
    requires WellFormed(ts) && Spelled(ts) && p < |ts| && ExpressaoRelacional(ts, p).Ok?
    ensures var r := ExpressaoRelacional(ts, p).value;
      r.node.name == "ExpressaoRelacional" && |r.node.children| == 1 &&
      var c := r.node.children[0];
      (c.name == "ExpressaoAritmetica" ||
       (c.name in {">", "<", ">=", "<=", "==", "!="} && |c.children| == 2 &&
        c.children[0].name == "ExpressaoAritmetica" && c.children[1].name == "ExpressaoAritmetica")) &&
      (IsRelOp(ts[r.next].kind) ==> c.name != "ExpressaoAritmetica")
  {
    var left := ExpressaoAritmetica(ts, p).value;
    ExpressaoAritmeticaNamed(ts, p);
    var t := ts[left.next];
    if IsRelOp(t.kind) {
      var q := NextIndex(ts, left.next);
      var right := ExpressaoAritmetica(ts, q).value;
      ExpressaoAritmeticaNamed(ts, q);
      assert t.value == Spelling(t.kind);
      RelationalLexeme(t);
      assert ExpressaoRelacional(ts, p).value ==
             Parsed(Node("ExpressaoRelacional", [Node(Lexeme(t), [left.node, right.node])]), right.next);
    } else {
      assert ExpressaoRelacional(ts, p).value == Parsed(Node("ExpressaoRelacional", [left.node]), left.next);
    }
  }

  lemma RelationalLexeme(t: Token)
    requires IsRelOp(t.kind) && t.value == Spelling(t.kind)
    ensures Lexeme(t) in {">", "<", ">=", "<=", "==", "!="} && Lexeme(t) != "ExpressaoAritmetica"
  {
  }

  lemma ExpressaoAritmeticaNamed(ts: seq<Token>, p: nat)
    requires WellFormed(ts) && p < |ts| && ExpressaoAritmetica(ts, p).Ok?
    ensures ExpressaoAritmetica(ts, p).value.node.name == "ExpressaoAritmetica"
  {
  }

  /** A relational expression not followed by E or OU is a logical
      expression of its own. */
  lemma LoneComparisonLogic(ts: seq<Token>, p: nat)
    requires WellFormed(ts) && p < |ts| && ExpressaoRelacional(ts, p).Ok?
    requires ts[ExpressaoRelacional(ts, p).value.next].kind !in {E, OU}
    ensures var r := ExpressaoRelacional(ts, p).value;
      ExpressaoLogica(ts, p) == Ok(Parsed(Node("ExpressaoLogica", [r.node]), r.next))
  {
    var r := ExpressaoRelacional(ts, p).value;
    assert LogicaLoop(ts, r.next, r.node) == Ok(Parsed(r.node, r.next));
  }

  /** A number or name not followed by '*' or '/' is a term of one factor. */
  lemma LoneOperandTerm(ts: seq<Token>, p: nat)
    requires WellFormed(ts) && p + 1 < |ts| && ts[p].kind in {NUMBER, IDENTIFIER} && ts[p + 1].kind !in {MUL, DIV}
    ensures Termo(ts, p) == Ok(Parsed(Node("Termo", [Node(OperandLabel(ts[p]), [])]), p + 1))
  {
    var f := Node(OperandLabel(ts[p]), []);
    assert Fator(ts, p) == Ok(Parsed(f, p + 1));
    assert TermoLoop(ts, p + 1, f) == Ok(Parsed(f, p + 1));
  }

  /** ... and, not followed by any arithmetic operator, an arithmetic
      expression of one term. */
  lemma LoneOperandExpression(ts: seq<Token>, p: nat)
    requires WellFormed(ts) && p + 1 < |ts| && ts[p].kind in {NUMBER, IDENTIFIER}
    requires ts[p + 1].kind !in {PLUS, MINUS, MUL, DIV}
    ensures ExpressaoAritmetica(ts, p) ==
            Ok(Parsed(Node("ExpressaoAritmetica", [Node("Termo", [Node(OperandLabel(ts[p]), [])])]), p + 1))
  {
    LoneOperandTerm(ts, p);
    var t := Node("Termo", [Node(OperandLabel(ts[p]), [])]);
    assert AritmeticaLoop(ts, p + 1, t) == Ok(Parsed(t, p + 1));
  }

  /** The '+' / '-' loop at an operator followed by a term folds that term
      in on the right and carries on; anywhere else it stops. */
  lemma SumStep(ts: seq<Token>, p: nat, left: Node)
    requires WellFormed(ts) && p < |ts|
    ensures ts[p].kind !in {PLUS, MINUS} ==> AritmeticaLoop(ts, p, left) == Ok(Parsed(left, p))
    ensures p + 1 < |ts| && ts[p].kind in {PLUS, MINUS} && Termo(ts, p + 1).Ok? ==>
      var right := Termo(ts, p + 1).value;
      AritmeticaLoop(ts, p, left) == AritmeticaLoop(ts, right.next, Node(Lexeme(ts[p]), [left, right.node]))
  {
  }

  /** The same for the '*' / '/' loop and factors. */
  lemma ProductStep(ts: seq<Token>, p: nat, left: Node)
    requires WellFormed(ts) && p < |ts|
    ensures ts[p].kind !in {MUL, DIV} ==> TermoLoop(ts, p, left) == Ok(Parsed(left, p))
    ensures p + 1 < |ts| && ts[p].kind in {MUL, DIV} && Fator(ts, p + 1).Ok? ==>
      var right := Fator(ts, p + 1).value;
      TermoLoop(ts, p, left) == TermoLoop(ts, right.next, Node(Lexeme(ts[p]), [left, right.node]))
  {
  }

  /** A relational operator after an arithmetic expression takes one more
      arithmetic expression as its right operand. */
  lemma ComparisonStep(ts: seq<Token>, p: nat)
    requires WellFormed(ts) && p < |ts| && ExpressaoAritmetica(ts, p).Ok?
    requires IsRelOp(ts[ExpressaoAritmetica(ts, p).value.next].kind)
    ensures var left := ExpressaoAritmetica(ts, p).value;
      left.next + 1 < |ts| && ExpressaoAritmetica(ts, left.next + 1).Ok? ==>
      var right := ExpressaoAritmetica(ts, left.next + 1).value;
      ExpressaoRelacional(ts, p) ==
      Ok(Parsed(Node("ExpressaoRelacional", [Node(Lexeme(ts[left.next]), [left.node, right.node])]), right.next))
  {
  }

  // ---------------------------------------------------------------------
  // Factors

  /** `parse_fator` on a number or a name: the `TYPE(value)` leaf of that
      one token. */
  lemma OperandFactor(ts: seq<Token>, p: nat)
    requires WellFormed(ts) && p < |ts| && ts[p].kind in {NUMBER, IDENTIFIER}
    ensures Fator(ts, p) == Ok(Parsed(Node(OperandLabel(ts[p]), []), p + 1))
  {
  }

  /** `parse_fator` rejects any token that is not a number, a name or '('
      at that token; so an accepted factor starts with one of the three. */
  lemma FactorFault(ts: seq<Token>, p: nat)
    requires WellFormed(ts) && p < |ts| && ts[p].kind !in {NUMBER, IDENTIFIER, LPAREN}
    ensures Fator(ts, p) == Err(SynErr(UnexpectedFactor, ts[p]))
  {
  }

  /** A parenthesised factor is a `Group` of the '(' leaf, the logical
      expression after it and the ')' leaf that closes it. */
  lemma GroupFactor(ts: seq<Token>, p: nat)
    requires WellFormed(ts) && p < |ts| && ts[p].kind == LPAREN && Fator(ts, p).Ok?
    ensures var r := Fator(ts, p).value;
      ExpressaoLogica(ts, p + 1).Ok? && ts[r.next - 1].kind == RPAREN &&
      r.node == Node("Group", [Leaf(ts[p]), ExpressaoLogica(ts, p + 1).value.node, Leaf(ts[r.next - 1])])
  {
  }
}
