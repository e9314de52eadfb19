# AnalisadorPython in Dafny

This project models the two analyses of AnalisadorPython, a front end for a small
Portuguese-keyword teaching language (`INICIO … DECLS … FIMDECLS … CODIGO … FIMPROG`):

- **The scanner.** `Lexer` in `analisador_lexical.py` is a cursor (`pos`, `line`, `col`,
  `current_char`) over the source text, with line breaks normalised. It skips blanks, `#` line
  comments and `/* */` block comments. It reads one- and two-character operators, numeric
  constants under several rejection rules, and identifiers. Identifiers are looked up in the
  reserved-word table without regard to case. The scanner returns a token list that ends in a
  single `EOF` token, or raises a lexical error with a line and column.
- **The parser.** `Parser` in `analisador_sintatico.py` is a recursive-descent parser. It keeps
  an index into the token list and never backtracks. It builds a `Node(label, children)` tree,
  and the first grammar violation raises `SyntaxError_`.

Each component is modelled twice:

- **A reference definition made of functions.**
  - `LexSpec` works on the normalised text and an offset.
  - `ParseSpec` works on the token list and an index. Each grammar rule returns the subtree and
    the index where the next rule resumes.
- **An imperative class with one method per source method.**
  - `LexicalAnalyzer.Lexer` has the scanner's cursor fields.
  - `SyntacticAnalyzer.Parser` has `tokens`, `pos` and `currentToken`.
  - Each method is proved to compute its reference function from the cursor it starts at.
    - Operator loops with pop-and-rewrap keep a one-element `children` sequence and a loop
      invariant tying it to the reference loop.
    - List loops keep the invariant that the children built so far, followed by what the
      reference list builds from the cursor, give the whole list.

The properties are lemmas on the reference definitions:

- `LexProps` holds the properties of positions, normalisation, numerals, identifiers, operators,
  comments, the token list and lexical faults.
- `ParseProps` holds the properties of the root, the declarations, the commands, operator chains,
  the relational level and factors.
- `LexExamples` and `ParseExamples` check concrete inputs.
- `Pipeline` runs both stages as `main` does, and proves how a run can end.

Errors are values here, not exceptions:

- `LexError(message, line, column, ch)` for lexical faults.
- `SynErr(message, token)` for syntax faults.
- `Result` carries either a value or one of these faults.

The message constructors name the source's messages. The rendered text is not modelled. Token
kinds are the datatype `TokenType`, and `TypeName` gives the string the source uses for each.

Two consequences of the code are worth knowing when reading the trees:

- **No end-of-input check after `FIMPROG`.** `parse_programa` (analisador_sintatico.py:54-68)
  never reads the token after `FIMPROG`, so trailing tokens are accepted.
  `ParseExamples.TrailingTokensAccepted` shows this.
- **A `Termo` node under `+`.** In `2+3*4` the right operand of `+` is the `Termo` node holding
  `*`, not the `*` node itself, because every operand of `+` is a whole `parse_termo` result
  (analisador_sintatico.py:197-209). `ParseExamples.Precedence` shows this.

## Model

| member | source | states |
|---|---|---|
| LexSpec.Lower | analisador_lexical.py:173 | lowercasing keeps the length, leaves no upper-case letter, keeps every other character, and turns each upper-case letter into the lower-case letter at the same place in the alphabet |
| LexSpec.ReplaceCr | analisador_lexical.py:72 | the result keeps the length and contains no `\r`; each `\r` becomes `\n` and every other character is kept |
| LexSpec.Normalize | analisador_lexical.py:72 | the normalised text contains no `\r` and is no longer than the source |
| LexSpec.BlanksEnd | analisador_lexical.py:108-110 | the run skipped is all blanks (space, tab, newline) and stops at a non-blank or the end |
| LexSpec.LineCommentEnd | analisador_lexical.py:112-115 | a line comment stops at the first `\n` (not consumed) or at the end of the text |
| LexSpec.CommentClose | analisador_lexical.py:123-128 | the block comment ends just after the first `*/` that starts at or after the given offset, or there is no `*/` at all |
| LexSpec.DigitsEnd | analisador_lexical.py:140-142 | the digit run is maximal: all digits, and followed by a non-digit or the end |
| LexSpec.IdentEnd | analisador_lexical.py:170-172 | the identifier run is maximal over letters, digits and `_` |
| LexSpec.ScanNumber | analisador_lexical.py:131-160 | an accepted constant is the NUMBER token whose value is the text from its start to where scanning stopped, positioned at its first character |
| LexSpec.ScanIdentifier | analisador_lexical.py:162-174 | succeeds exactly when the character is a letter or `_`; the lexeme is the maximal identifier there, its kind is the reserved-word lookup of that lexeme, and the value keeps its case |
| LexSpec.TokenAt | analisador_lexical.py:190-266 | a token read at an offset starts there, its value is the slice of text it covers, and it is never EOF |
| LexSpec.SkipTrivia | analisador_lexical.py:178-189 | skipping blanks and comments moves forward and stops at a character that is neither blank, `#` nor the start of `/*` |
| LexSpec.NextToken | analisador_lexical.py:177-267 | a token starts at or after the offset; EOF only at the end of the text, with value None and the end position; any other token covers its lexeme |
| LexSpec.LexFromUnfold | analisador_lexical.py:269-276 | `tokenize` stops at the first fault, ends the list at the first EOF, and otherwise puts the token read in front of the rest |
| LexSpec.LexFrom | analisador_lexical.py:269-276 | scanning from a position either fails or gives a non-empty token list; the full shape of that list is `LexProps.LexFromWellFormed` |
| LexSpec.Lex | analisador_lexical.py:70-77 | `Lexer(text).tokenize()` scans the normalised text from its start; an accepted run gives a non-empty token list |
| LexSpec.KeywordType | analisador_lexical.py:37-67 | a word is an IDENTIFIER exactly when its lowercase form is not a key of `RESERVED`, and otherwise gets the type `RESERVED` maps that key to (analisador_lexical.py:173) |
| LexSpec.LineAt | analisador_lexical.py:79-89 | the line `advance` has reached at a position is at least 1 and at most one more than the position |
| LexSpec.ColAt | analisador_lexical.py:79-89 | the column `advance` has reached is at most one more than the position, and at least 1 on a character of the text or on an empty text |
| LexSpec.NextNonBlank | analisador_lexical.py:97-103 | the character found is not a space, tab or line break, and there is none exactly when the rest of the text is all blanks |
| LexicalAnalyzer.Lexer.constructor | analisador_lexical.py:70-77 | the text is normalised and the cursor is on its first character at line 1, column 1 |
| LexicalAnalyzer.Lexer.Advance | analisador_lexical.py:79-89 | advancing moves one character on; a line break increments the line and restarts the column at 1 (0 at the end of the text); any other character adds one column, except at the end; the cursor invariant is kept |
| LexicalAnalyzer.Lexer.Peek | analisador_lexical.py:91-95 | the character n places ahead, or None past the end |
| LexicalAnalyzer.Lexer.PeekNextNonWhitespace | analisador_lexical.py:97-103 | the first non-blank character at or after the cursor, or None |
| LexicalAnalyzer.Lexer.SkipWhitespace | analisador_lexical.py:108-110 | the cursor ends at the end of the blank run |
| LexicalAnalyzer.Lexer.SkipLineComment | analisador_lexical.py:112-115 | the cursor ends at the line break that closes the comment, or at the end |
| LexicalAnalyzer.Lexer.SkipBlockComment | analisador_lexical.py:117-129 | the cursor ends just after the closing `*/`; with no closing `*/` the fault is raised at the comment's opening position |
| LexicalAnalyzer.Lexer.AppendDigits | analisador_lexical.py:145-147 | the digit loop appends exactly the digit run and leaves the cursor after it |
| LexicalAnalyzer.Lexer.Number | analisador_lexical.py:131-160 | `number` computes the reference scan of a numeric constant: the same token and final cursor, or the same fault |
| LexicalAnalyzer.Lexer.FractionOnly | analisador_lexical.py:135-143 | a constant starting with '.' is scanned as the reference does: '.' and its digits, or the fault when no digit follows |
| LexicalAnalyzer.Lexer.IntegerPart | analisador_lexical.py:144-160 | a constant starting with a digit is scanned as the reference does: digits, an optional fraction, and the faults for a bare or a second '.' |
| LexicalAnalyzer.Lexer.IdentifierOrKeyword | analisador_lexical.py:162-174 | `identifier_or_keyword` computes the reference identifier scan |
| LexicalAnalyzer.Lexer.ScanToken | analisador_lexical.py:190-266 | the operator, number, identifier and invalid-character dispatch computes the reference token at the cursor |
| LexicalAnalyzer.Lexer.GetNextToken | analisador_lexical.py:177-267 | `get_next_token` computes the reference next token, skipping trivia first |
| LexicalAnalyzer.Lexer.Tokenize | analisador_lexical.py:269-276 | `tokenize` returns exactly the reference token list from the cursor, or its first fault |
| LexProps.ColumnSinceLastBreak | analisador_lexical.py:79-89 | the column count is the number of characters since the last line break |
| LexProps.NewlinesCountsBreaks | analisador_lexical.py:81-82 | the line count is the number of `\n` characters passed |
| LexProps.PositionOfCharacter | analisador_lexical.py:79-89 | a character's line is 1 plus the line breaks before it; its column is at least 1 and counts back to the previous break |
| LexProps.NoBreaks | analisador_lexical.py:79-89 | text without line breaks adds no line and one column per character |
| LexProps.SingleLine | analisador_lexical.py:75-89 | on one-line text, offset p is at line 1, column p+1; the end is at the last column, or column 1 for empty text |
| LexProps.PositionStep | analisador_lexical.py:79-89 | one advance never moves the reported position backwards |
| LexProps.PositionsMonotone | analisador_lexical.py:79-89 | reported positions never go backwards as the cursor moves on |
| LexProps.ReplaceCrLfWithoutCr | analisador_lexical.py:72 | replacing `\r\n` leaves a text without `\r` unchanged |
| LexProps.ReplaceCrLfAtPair | analisador_lexical.py:72 | wherever a `\r\n` occurs, replacing pairs turns it into one `\n` and treats the text before and after it on their own |
| LexProps.ReplaceCrLfWithoutPair | analisador_lexical.py:72 | a text that holds no `\r\n` pair is kept as it is, lone `\r` included |
| LexProps.NormalizeAtPair | analisador_lexical.py:72 | the whole normalisation turns each `\r\n` into one line break and normalises the two sides on their own |
| LexProps.NormalizeFixesCleanText | analisador_lexical.py:72 | normalisation leaves a text without `\r` unchanged |
| LexProps.NormalizeIdempotent | analisador_lexical.py:72 | normalising twice is normalising once |
| LexProps.LexCleanText | analisador_lexical.py:72 | on text without `\r` the scanner sees the source unchanged |
| LexProps.DigitsEndAt | analisador_lexical.py:140-142 | a digit run that stops at q ends at q |
| LexProps.IdentEndAt | analisador_lexical.py:170-172 | an identifier run that stops at q ends at q |
| LexProps.ScanNumberShape | analisador_lexical.py:131-160 | an accepted constant has the form digit+('.'digit+)? or '.'digit+, is not followed by a digit, and is not followed by '.' unless it began with '.' |
| LexProps.IntegerAccepted | analisador_lexical.py:145-160 | conversely, a digit run followed by neither a digit nor '.' is accepted as one NUMBER token spanning exactly that run |
| LexProps.FractionAccepted | analisador_lexical.py:145-160 | conversely, digits, one '.', at least one digit, followed by neither a digit nor a second '.', are accepted as one NUMBER token spanning exactly that text |
| LexProps.LeadingDotAccepted | analisador_lexical.py:134-143 | conversely, '.' and a digit run followed by no digit are accepted as one NUMBER token spanning exactly that text |
| LexProps.TrailingDotRejected | analisador_lexical.py:149-153 | digits followed by a '.' without a digit after it fail with "digits required after decimal point" at the constant's start, with char '.' |
| LexProps.SecondDotRejected | analisador_lexical.py:157-159 | a second '.' fails with "multiple decimal points" at the second '.' itself, which is the cursor, not the start |
| LexProps.DotAfterNumberRejected | analisador_lexical.py:250-256 | a '.' after a complete constant, with only blanks between them, fails with "unexpected '.' after number" at the constant's start |
| LexProps.ScanIdentifierShape | analisador_lexical.py:162-174 | an identifier token covers a maximal `[A-Za-z_][A-Za-z0-9_]*` lexeme, keeps its case, and has the reserved-word kind of that lexeme |
| LexProps.LowerTwice | analisador_lexical.py:173 | lowercasing is idempotent |
| LexProps.KeywordIgnoresCase | analisador_lexical.py:173 | the reserved-word lookup gives the same kind for a word and its lowercase form, so `INT`, `Int` and `int` agree |
| LexProps.KeywordKinds | analisador_lexical.py:37-67 | a lookup yields a reserved word's kind or IDENTIFIER, never an operator, NUMBER or EOF |
| LexProps.RelationalOperators | analisador_lexical.py:218-248 | `>`, `<`, `=` followed by `=` give GE, LE, EQ with a two-character value, and otherwise GT, LT, ASSIGN; `!=` gives NE; a lone `!` fails at the `!`; every token is positioned at its first character |
| LexProps.TriviaSkipped | analisador_lexical.py:178-189 | blanks and `#` and closed `/* */` comments are skipped; an unterminated comment fails at its opening; a `/` not followed by `*` is DIV |
| LexProps.InvalidCharacterRejected | analisador_lexical.py:250-266 | a character no rule accepts, including a '.' not followed by a digit, fails with "Invalid character" at its own position |
| LexProps.IdentifierIsNotNumeral | analisador_lexical.py:162-174 | no identifier lexeme is also a numeral |
| LexProps.TokenKindFromLexeme | analisador_lexical.py:190-266 | the kind of every scanned token is decided by its lexeme alone, and operator tokens carry their fixed spelling |
| LexProps.LexFromWellFormed | analisador_lexical.py:267-276 | the token list is non-empty, ends in EOF with value None, EOF occurs nowhere else, and every other token has a non-empty value |
| LexProps.LexemeSpans | analisador_lexical.py:177-276 | each non-EOF token's value is the slice of the normalised text at its own offsets and its position is that of the slice's start; the slices are in order and do not overlap; EOF is last, at the end position |
| LexProps.TokensFollowLexemes | analisador_lexical.py:190-276 | every token in the list carries the kind its lexeme denotes, and operators their fixed spelling |
| LexProps.TokenPositionsInOrder | analisador_lexical.py:177-276 | token positions never decrease along the list |
| LexProps.SkipTriviaFaultPositioned | analisador_lexical.py:117-129 | the only fault while skipping trivia is the unterminated comment, at a real position |
| LexProps.LexFaultPositioned | analisador_lexical.py:105-106 | every lexical fault has line and column at least 1 |
| LexExamples.EmptyInput | analisador_lexical.py:267-276 | empty input gives just EOF at line 1, column 1 |
| LexExamples.IntegerConstant | analisador_lexical.py:145-160 | "123" gives NUMBER "123" then EOF |
| LexExamples.FractionConstant | analisador_lexical.py:145-160 | "123.456" gives NUMBER "123.456" then EOF at 1:7 |
| LexExamples.LeadingDotConstant | analisador_lexical.py:134-143 | ".5" gives NUMBER ".5" then EOF at 1:2 |
| LexExamples.TrailingDot | analisador_lexical.py:149-153 | "1." fails at 1:1 with char '.' |
| LexExamples.TwoDecimalPoints | analisador_lexical.py:157-159 | "1.2.3" fails at 1:4, the second '.' |
| LexExamples.DotAfterSpace | analisador_lexical.py:250-256 | "1 .5" fails with "unexpected '.' after number" at 1:1 |
| LexExamples.DotAfterFraction | analisador_lexical.py:135-143 | ".5.3" fails with "unexpected '.' after number" at 1:1 |
| LexExamples.ReservedWordUpper | analisador_lexical.py:162-174 | `INT` is an INT token with value "INT" |
| LexExamples.ReservedWordMixed | analisador_lexical.py:162-174 | `Int` is an INT token with value "Int" |
| LexExamples.ReservedWordLower | analisador_lexical.py:162-174 | `int` is an INT token with value "int", followed by EOF |
| LexExamples.OpenComment | analisador_lexical.py:117-129 | an unclosed `/*` fails at its opening, 1:1 |
| LexExamples.LineBreaksNormalised | analisador_lexical.py:72 | `\r\n` and a lone `\r` both become `\n` |
| LexExamples.SecondLine | analisador_lexical.py:79-89 | after a line break the next token is on line 2, column 1 |
| LexExamples.EndAfterLineBreak | analisador_lexical.py:79-89 | after a final line break EOF is on the next line at column 0 |
| LexExamples.LoneBang | analisador_lexical.py:234-240 | "x ! y" fails at the `!`, 1:3 |
| ParseSpec.Expect | analisador_sintatico.py:36-42 | `eat` succeeds exactly when the kind matches, giving a childless leaf labelled `KIND(value)` (or `KIND` without a value) and advancing strictly unless at EOF; otherwise it fails at the current token |
| ParseSpec.Programa | analisador_sintatico.py:54-68 | a parsed program consumes at least one token and stays inside the list |
| ParseSpec.Codigo | analisador_sintatico.py:60-63 | FIMDECLS, CODIGO, the commands and FIMPROG give four children and consume at least one token |
| ParseSpec.Decls | analisador_sintatico.py:78-85 | the declarations stay inside the list |
| ParseSpec.DeclList | analisador_sintatico.py:80-84 | the declaration loop stops only at FIMDECLS or EOF |
| ParseSpec.Decl | analisador_sintatico.py:87-96 | a declaration consumes exactly three tokens |
| ParseSpec.Comandos | analisador_sintatico.py:101-105 | the command block stops only at FIMPROG, FIMBLOCO, FIMDECLS or EOF |
| ParseSpec.CommandList | analisador_sintatico.py:103-104 | the command loop stops only at one of those four kinds |
| ParseSpec.Comando | analisador_sintatico.py:107-141 | a command consumes at least one token |
| ParseSpec.Atribuicao | analisador_sintatico.py:146-151 | an assignment consumes at least one token |
| ParseSpec.Condicional | analisador_sintatico.py:156-164 | a conditional consumes at least one token |
| ParseSpec.Bloco | analisador_sintatico.py:160-163 | BLOCO, the commands and FIMBLOCO give three children and consume at least one token |
| ParseSpec.ExpressaoLogica | analisador_sintatico.py:169-181 | a logical expression consumes at least one token |
| ParseSpec.LogicaLoop | analisador_sintatico.py:174-179 | the E/OU loop never moves back |
| ParseSpec.ExpressaoRelacional | analisador_sintatico.py:183-195 | a relational expression consumes at least one token |
| ParseSpec.ExpressaoAritmetica | analisador_sintatico.py:197-209 | an arithmetic expression consumes at least one token |
| ParseSpec.AritmeticaLoop | analisador_sintatico.py:202-207 | the +/- loop never moves back |
| ParseSpec.Termo | analisador_sintatico.py:211-220 | a term consumes at least one token |
| ParseSpec.TermoLoop | analisador_sintatico.py:214-219 | the * and / loop never moves back |
| ParseSpec.Fator | analisador_sintatico.py:222-234 | a factor consumes at least one token |
| SyntacticAnalyzer.Parser.constructor | analisador_sintatico.py:20-23 | the cursor is on the first token |
| SyntacticAnalyzer.Parser.Advance | analisador_sintatico.py:31-34 | `advance` moves one token on but never past the last; the current token stays the one at the index |
| SyntacticAnalyzer.Parser.Eat | analisador_sintatico.py:36-42 | `eat` computes `Expect` from the cursor, and leaves the cursor in place on failure |
| SyntacticAnalyzer.Parser.PeekNextType | analisador_sintatico.py:44-49 | the kind `offset` tokens ahead, or None past the end |
| SyntacticAnalyzer.Parser.PeekIsColon | analisador_sintatico.py:73-76 | whether the next token is a COLON |
| SyntacticAnalyzer.Parser.ParsePrograma | analisador_sintatico.py:54-68 | `parse_programa` returns the reference tree and cursor, or its fault |
| SyntacticAnalyzer.Parser.ParseCodigo | analisador_sintatico.py:60-63 | the last four steps of `parse_programa` return the reference children and cursor, or the fault |
| SyntacticAnalyzer.Parser.ParseDecls | analisador_sintatico.py:78-85 | `parse_decls` returns the reference declarations |
| SyntacticAnalyzer.Parser.ParseDecl | analisador_sintatico.py:87-96 | `parse_decl` returns the reference declaration |
| SyntacticAnalyzer.Parser.ParseComandos | analisador_sintatico.py:101-105 | `parse_comandos` returns the reference command block |
| SyntacticAnalyzer.Parser.ParseComando | analisador_sintatico.py:107-141 | `parse_comando` returns the reference command |
| SyntacticAnalyzer.Parser.ParseAtribuicao | analisador_sintatico.py:146-151 | `parse_atribuicao` returns the reference assignment |
| SyntacticAnalyzer.Parser.ParseIf | analisador_sintatico.py:156-164 | `parse_if` returns the reference conditional |
| SyntacticAnalyzer.Parser.ParseBloco | analisador_sintatico.py:160-163 | the last three steps of `parse_if` return the reference children and cursor, or the fault |
| SyntacticAnalyzer.Parser.ParseExpressaoLogica | analisador_sintatico.py:169-181 | the pop-and-rewrap loop over E/OU returns the reference logical expression |
| SyntacticAnalyzer.Parser.ParseExpressaoRelacional | analisador_sintatico.py:183-195 | `parse_expressao_relacional` returns the reference relational expression |
| SyntacticAnalyzer.Parser.ParseExpressaoAritmetica | analisador_sintatico.py:197-209 | the pop-and-rewrap loop over +/- returns the reference arithmetic expression |
| SyntacticAnalyzer.Parser.ParseTermo | analisador_sintatico.py:211-220 | the pop-and-rewrap loop over * and / returns the reference term |
| SyntacticAnalyzer.Parser.ParseFator | analisador_sintatico.py:222-234 | `parse_fator` returns the reference factor |
| ParseProps.AdvanceInBounds | analisador_sintatico.py:31-34 | the next index stays inside the list; it moves by one except on EOF, where it stays put |
| ParseSpec.NextIndex | analisador_sintatico.py:31-34 | `advance`'s cursor step; it has no contract of its own, and its bounds are `ParseProps.NextIndexBounds` and `ParseProps.AdvanceInBounds` |
| ParseProps.NextIndexBounds | analisador_sintatico.py:31-34 | on any list the cursor never moves back, moves by at most one, and stays on the list when it starts on it |
| ParseSpec.PeekType | analisador_sintatico.py:44-49 | `peek_next_type`; it has no contract of its own, and its meaning is `ParseProps.PeekTypeShape` |
| ParseProps.PeekTypeShape | analisador_sintatico.py:44-49 | looking `offset` tokens ahead gives a type exactly when that index is on the list, and then it is that token's type |
| ParseSpec.LeafLabel | analisador_sintatico.py:38 | the label `eat` gives a leaf; it has no contract of its own, and its shape is `ParseProps.LeafLabelShape` |
| ParseProps.LeafLabelShape | analisador_sintatico.py:38 | a leaf's label starts with the type name and goes on with the lexeme in parentheses exactly when the token has a non-empty value; otherwise it is the type name alone |
| ParseProps.ProgramaShape | analisador_sintatico.py:54-63 | the root is `Programa` with seven children in order: the INICIO leaf, the DECLS leaf, `Decls`, the FIMDECLS leaf, the CODIGO leaf, `Comandos`, the FIMPROG leaf; parsing ends just after FIMPROG |
| ParseProps.ProgramaFrom | analisador_sintatico.py:54-63 | conversely, INICIO DECLS, accepted declarations, FIMDECLS CODIGO, accepted commands and FIMPROG give exactly that seven-child root, ending just after FIMPROG |
| ParseProps.ProgramaRoot | analisador_sintatico.py:54-63 | an accepted program's root is `Programa` with seven children |
| ParseProps.ProgramaEnds | analisador_sintatico.py:54-63 | an accepted program runs from the INICIO at index 0 to a FIMPROG just before where parsing stops |
| ParseProps.ProgramaNeedsInicio | analisador_sintatico.py:57 | a program not opening with INICIO fails at its first token |
| ParseProps.DeclListShape | analisador_sintatico.py:78-96 | every declaration is a `Decl` of an IDENTIFIER, COLON and INT/FLOAT leaf, three tokens each, and the list ends at FIMDECLS or EOF |
| ParseProps.EmptyDecls | analisador_sintatico.py:78-85 | at FIMDECLS or EOF the declarations are an empty `Decls` node and consume nothing |
| ParseProps.DeclListComplete | analisador_sintatico.py:78-96 | any run of `name : TYPE` triples ended by FIMDECLS or EOF is accepted, with one node per triple |
| ParseProps.DeclListFault | analisador_sintatico.py:80-95 | a declaration fault is either a token before FIMDECLS/EOF that is not an IDENTIFIER followed by COLON, or a non-INT/FLOAT token after `name :` |
| ParseProps.CommandListShape | analisador_sintatico.py:101-141 | every command is a non-empty `Comando` node, the block stops at one of the four closing kinds, and it is empty exactly when it starts at one |
| ParseProps.InvalidCommandFault | analisador_sintatico.py:107-139 | a command starting with anything but LEIA, ESCREVA, SE or IDENTIFIER fails with "Comando inválido" at that token |
| ParseProps.AssignExpectedFault | analisador_sintatico.py:127-136 | an IDENTIFIER not followed by ASSIGN fails at the identifier, naming the kind that followed (or none) |
| ParseProps.WriteArgumentFault | analisador_sintatico.py:115-121 | `ESCREVA (` followed by anything but IDENTIFIER or NUMBER fails at that token |
| ParseProps.ReadCommand | analisador_sintatico.py:110-112 | a command starting with LEIA is accepted exactly when a name follows; it is then `Comando` of the LEIA leaf and the name leaf, and parsing resumes after the name |
| ParseProps.ReadNameFault | analisador_sintatico.py:110-112 | LEIA followed by anything but a name fails with "expected IDENTIFIER" at that token |
| ParseProps.WriteCommand | analisador_sintatico.py:114-121 | a command starting with ESCREVA is accepted exactly when `(`, a name or number, and `)` follow; it is then `Comando` of those four leaves, and parsing resumes after `)` |
| ParseProps.WriteOpenFault | analisador_sintatico.py:114-116 | ESCREVA not followed by `(` fails with "expected LPAREN" at that token |
| ParseProps.WriteCloseFault | analisador_sintatico.py:114-121 | `ESCREVA (` and an argument not followed by `)` fail with "expected RPAREN" at that token |
| ParseProps.ConditionalCommand | analisador_sintatico.py:123-124 | a command starting with SE is accepted exactly when the conditional is, and is then `Comando` holding the `Condicional` node, ending where it ends |
| ParseProps.ConditionalShape | analisador_sintatico.py:156-164 | an accepted conditional is `Condicional` of the SE leaf, the condition, the ENTAO leaf, the BLOCO leaf, the commands and the FIMBLOCO leaf, each part starting where the previous one ends, and parsing resumes just after FIMBLOCO |
| ParseProps.ConditionalFrom | analisador_sintatico.py:156-164 | conversely, SE, an accepted condition, ENTAO, BLOCO, accepted commands and FIMBLOCO give exactly that six-child node |
| ParseProps.AssignmentCommand | analisador_sintatico.py:127-134 | IDENTIFIER ASSIGN and an accepted logical expression give a `Comando` node holding `Atribuicao(name leaf, '=' leaf, expression)` and end where the expression ends |
| ParseProps.EmptyComandos | analisador_sintatico.py:101-105 | at FIMPROG, FIMBLOCO, FIMDECLS or EOF the command block is an empty `Comandos` node and consumes nothing |
| ParseProps.FatorIsFactorNode | analisador_sintatico.py:222-234 | a factor is a `TYPE(value)` leaf for NUMBER or IDENTIFIER, or a three-child `Group` around a logical expression |
| ParseProps.LogicaLoopChain | analisador_sintatico.py:174-179 | the E/OU loop builds a left-leaning chain of two-child nodes labelled with the token kind, each taking the previous result as its left child |
| ParseProps.AritmeticaLoopChain | analisador_sintatico.py:202-207 | the +/- loop builds a left-leaning chain of two-child nodes labelled with the token value whose right children are `Termo` nodes |
| ParseProps.TermoLoopChain | analisador_sintatico.py:214-219 | the * and / loop builds a left-leaning chain of two-child nodes whose right children are factors |
| ParseProps.LogicChainExtends | analisador_sintatico.py:174-179 | a chain built on one more operator step is a chain on the earlier base |
| ParseProps.SumChainExtends | analisador_sintatico.py:202-207 | the same for +/- chains |
| ParseProps.ProductChainExtends | analisador_sintatico.py:214-219 | the same for * and / chains |
| ParseProps.ExpressaoLogicaShape | analisador_sintatico.py:169-181 | `ExpressaoLogica` has exactly one child: the E/OU chain over the first relational expression |
| ParseProps.ExpressaoAritmeticaShape | analisador_sintatico.py:197-209 | `ExpressaoAritmetica` has exactly one child: the +/- chain over the first `Termo` |
| ParseProps.TermoShape | analisador_sintatico.py:211-220 | `Termo` has exactly one child: the * and / chain over the first factor |
| ParseProps.RelationalAtMostOne | analisador_sintatico.py:183-195 | `ExpressaoRelacional` has one child: an arithmetic expression, or one comparison node labelled with the operator's value over two arithmetic expressions; a comparison operator left over means one was already taken |
| ParseProps.OperandFactor | analisador_sintatico.py:223-226 | NUMBER or IDENTIFIER gives a childless `TYPE(value)` leaf and advances by one |
| ParseProps.FactorFault | analisador_sintatico.py:222-234 | any token other than NUMBER, IDENTIFIER and LPAREN fails with "Fator inesperado" at that token |
| ParseProps.GroupFactor | analisador_sintatico.py:227-232 | an accepted parenthesised factor is `Group(LPAREN leaf, logical expression, RPAREN leaf)`, ending just after the RPAREN |
| ParseExamples.MinimalProgram | analisador_sintatico.py:54-63 | the minimal program gives the seven-child root with empty `Decls` and `Comandos` |
| ParseExamples.TrailingTokensAccepted | analisador_sintatico.py:54-68 | a token after FIMPROG does not make the parse fail and is never read |
| ParseExamples.IdentifierWithoutAssign | analisador_sintatico.py:127-136 | "x y" fails at `x`, naming IDENTIFIER as what followed |
| ParseExamples.ScannedIdentifierWithoutAssign | analisador_sintatico.py:127-136 | the text "x y" is scanned into two IDENTIFIER tokens and EOF, and parsing a command from that list fails at `x`, naming IDENTIFIER as what followed |
| ParseExamples.Precedence | analisador_sintatico.py:197-220 | in "2+3*4" the right child of `+` is the `Termo` holding the `*` node |
| ParseExamples.LeftAssociative | analisador_sintatico.py:197-209 | in "a-b-c" the outer `-` has the `a-b` node as its left child |
| ParseExamples.ComparisonTakesOneOperator | analisador_sintatico.py:183-195 | in "x = a < b < c" the assignment ends before the second `<` |
| ParseExamples.ChainedComparison | analisador_sintatico.py:101-105 | the second `<` then fails with "Comando inválido" |
| Pipeline.Analyze | main.py:13-21 | running the lexer, then the parser, then `parse_programa` gives exactly the reference outcome |
| Pipeline.AnalyzeSpec | main.py:13-21 | the reference outcome is a lexical fault exactly when scanning the text fails, and then it is that fault |
| Pipeline.LexedTokensAreParserInput | analisador_sintatico.py:20-23 | the lexer's tokens are always a list the parser can run on: one EOF, last, and operators with their spelling |
| Pipeline.LexFaultFirst | main.py:13-19 | a run ends with a lexical fault exactly when scanning fails; that fault has a real position |
| Pipeline.SyntaxFaultAfterScan | main.py:13-21 | a syntax fault means the whole text scanned, and it is the fault `parse_programa` raises |
| Pipeline.TreeIsProgram | analisador_sintatico.py:54-68 | a finished run's tree is the `Programa` root with seven children, built from tokens that open with INICIO and close with FIMPROG |

## Left out

- Graphviz rendering is not modelled: the `Digraph` set-up, `_build_graph`, `graph.render` and the success message (analisador_sintatico.py:24-26, 65-67, 239-248). It is a foreign library call and file output. `parse_programa` returns the root.
- `node_counter` and `graph`, the parser fields used only for rendering, are left out.
- main.py's file reading and console printing are left out, as is its entry point; they are I/O. `Pipeline.Analyze` models the `try` block that runs the two stages.
- The error messages' rendered text and `Token.__repr__` are left out (analisador_lexical.py:23, 31-32; analisador_sintatico.py:7). Errors keep their structured fields: the message as a constructor, the line, the column, the character or token.
- `string.ascii_letters` and `str.lower` are modelled as ASCII ranges and ASCII lowercasing. Identifiers contain only ASCII, so nothing is lost.
- LexicalAnalyzer.Lexer.Advance: it requires a current character, so the model never moves the cursor past the end of the text. The source's `advance` at the end would only increment `pos` past the length and keep `current_char` at `None`; every call site in the source has a current character, so that case is never reached.
- LexicalAnalyzer.Lexer.ScanToken, LexicalAnalyzer.Lexer.AppendDigits, LexicalAnalyzer.Lexer.FractionOnly and LexicalAnalyzer.Lexer.IntegerPart are helpers factored out of `get_next_token` and `number`. The checks and their order are the source's own.
- ParseSpec.Codigo, ParseSpec.Bloco, SyntacticAnalyzer.Parser.ParseCodigo and SyntacticAnalyzer.Parser.ParseBloco split `parse_programa` and `parse_if` after their third step. The steps, their order and the children built are the source's own.
- The unreachable identifier faults, "Unexpected end while parsing identifier" and "Identifiers must start with ASCII letter or underscore" (analisador_lexical.py:166-169), are modelled in `ScanIdentifier`. `get_next_token` never calls it in those states.
- `error()`'s fallback `line or self.line` / `col or self.col` (analisador_lexical.py:105-106) is not a separate function. The one call without a position, the multiple-decimal-points fault (analisador_lexical.py:159), is modelled as reporting the cursor, which is what the fallback gives. Every other call passes a line and column of at least 1 (`LexProps.LexFaultPositioned`), so `or` never falls back there.
- LexSpec.LexFrom and LexSpec.Lex: their own contracts promise only a non-empty token list. The rest is proved separately, by induction over the scan, because it is too costly as part of the functions' own proofs. The full shape (one EOF, last, with no value; a value on every other token) is `LexProps.LexFromWellFormed`.
- LexSpec.RESERVED is a constant map, not a function, so it has no row of its own. Its contents are listed in `LexSpec`, and `LexSpec.KeywordType` states how `identifier_or_keyword` uses it.
- ParseSpec.NextIndex, ParseSpec.PeekType and ParseSpec.LeafLabel carry no ensures of their own. Their properties are stated as the lemmas `ParseProps.NextIndexBounds`, `ParseProps.AdvanceInBounds`, `ParseProps.PeekTypeShape` and `ParseProps.LeafLabelShape`.
- SyntacticAnalyzer.Parser.constructor takes the token list instead of the lexer. The `lexer.tokenize()` call of `__init__` is in `Pipeline.Analyze`, because a constructor cannot return a lexical fault.
- The parser's methods require a well-formed token list: non-empty, one EOF at the end, and a value on every other token. This is what `tokenize` returns (`Pipeline.LexedTokensAreParserInput`). The source's parser only ever receives such a list.
- ParseProps.ExpressaoAritmeticaShape, ParseProps.TermoShape, ParseProps.AritmeticaLoopChain, ParseProps.TermoLoopChain and ParseProps.RelationalAtMostOne: they also require operator tokens to carry their fixed spelling, because the nodes are labelled with the token value. The lexer guarantees this (`LexProps.TokensFollowLexemes`).
- ParseProps.GroupFactor: it describes an accepted group only. A fault inside the parentheses is the fault of the logical expression or of `eat("RPAREN")`, and no lemma names it.
- ParseProps.ProgramaShape: it does not state that the tokens after FIMPROG are EOF. The source does not check this (see above).
- Termination of the mutually recursive rules is proved by the measure (tokens left, rule rank). The source relies on Python's recursion.
- Python's recursion limit is not modelled. At the default limit of 1000 frames, a few hundred nested parentheses (each costs five frames, from `parse_fator` back down through the expression levels) or nested SE blocks make the source raise `RecursionError`. main.py:13-20 does not catch it, so that run ends with a traceback. The model returns a tree at any depth.
