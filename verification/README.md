# Kaleidoscope front end, modelled in Dafny

This project models the core of `kaleidoscope.cpp`, a small compiler front end
for the Kaleidoscope toy language. The model has four parts:

- **Lexer.** `gettok` turns characters into tokens: identifiers and the
  keywords `def`/`extern`, numbers, `#` comments, EOF, and single characters.
- **Parser.** A recursive-descent parser with precedence climbing for binary
  operators (`ParseExpression`/`ParseBinOpRHS`). It builds the AST
  (`NumExprAST`, `VariableExprAST`, `CallExprAST`, `BinaryExprAST`,
  `PrototypeAST`, `FunctionAST`).
- **Code generator.** This is the bookkeeping that decides whether code
  generation succeeds. `TheModule` is modelled as a map from function name to
  its parameters and whether it has a body. `Symbols` holds the parameter
  names. Lowering produces the diagnostics `LogErrorV` reports.
- **Driver.** `HandleDefinition`, `HandleExtern`, `HandleTopLevelExpression`
  and `MainLoop` dispatch on the current token and recover from a parse
  failure by skipping one token.

Each stateful routine of the C++ is a Dafny method on a class whose fields
are the routine's state:

- `Lexer.Lexer` holds the `LastChar` pushback cursor.
- `Parser.Parser` holds the `CurTok` cursor.
- `CodeGen.Generator` holds `TheModule` and `Symbols`.
- `Driver.Repl` holds the parser and the generator.

Each method is proved equal to a function of the inputs and the old state
(`LexSpec`, `Expression`, `Lower`, `Define`, `Run`, ...). The properties are
proved as lemmas about those functions:

- identifier, number, comment and EOF rules of the lexer;
- lexing rendered tokens gives the tokens back;
- an operator chain parses to the unique tree that respects precedence and
  left associativity;
- parsing a fully parenthesised rendering gives the tree back;
- how prototypes are read;
- lowering succeeds exactly when every name, callee, arity and operator
  resolves;
- what a definition does to the module (rollback on failure, the extern's
  parameter names win);
- a top-level expression leaves the module unchanged;
- recovery from a parse failure;
- every name in the module comes from an identifier in the input.

Files:

- `wrappers.dfy`: `Option`.
- `lexer.dfy`: tokens, a functional definition of gettok and the `Lexer` class.
- `lexer_props.dfy`: properties of the lexer.
- `ast.dfy`: the AST.
- `parser.dfy`: the parse functions and the `Parser` class.
- `parser_props.dfy`: properties of the parser.
- `codegen.dfy`: the code-generation bookkeeping and the `Generator` class.
- `driver.dfy`: the handlers, `MainLoop` and the whole pipeline `Compile`.

Three behaviours of the code that are easy to misread, and that the model
follows:

- **Number lexing.** The number loop stops at any second `.` and returns
  `tok_error` (`kaleidoscope.cpp:76-93`). So `3.14.15` lexes as `tok_error`
  followed by the number `.15` (`LexerProperties.SecondPointIsAnError`).
- **Top-level expressions.** The anonymous function of a top-level expression
  is generated, printed and erased; it is never invoked
  (`kaleidoscope.cpp:867-888`).
- **Missing `)` in a prototype.** A missing `)` is only logged, and the token
  is consumed anyway (`kaleidoscope.cpp:613-616`).

## Model

| member | source | states |
|---|---|---|
| Lexer.SkipSpace | kaleidoscope.cpp:56-58 | the leading whitespace loop stops at the first non-space character, and everything before it is space |
| Lexer.IdentEnd | kaleidoscope.cpp:62-65 | the identifier loop takes exactly the maximal `[alnum_]` run |
| Lexer.NumberEnd | kaleidoscope.cpp:78-84 | the number loop takes digits and at most one `.`; it reports whether a `.` was taken, and the character after the run cannot continue it |
| Lexer.CommentEnd | kaleidoscope.cpp:95-97 | a comment runs to the first `\n`/`\r` or EOF |
| Lexer.LexSpec | kaleidoscope.cpp:53-113 | one gettok call: tok_eof only at the end of input, every other token consumes input, identifiers start with a letter |
| Lexer.LexAll | kaleidoscope.cpp:53-113 | the tokens before the first tok_eof contain no tok_eof |
| Lexer.Keyword | kaleidoscope.cpp:66-74 | an identifier run is `tok_def` exactly when it spells `def`, `tok_extern` exactly when it spells `extern`, and otherwise a `tok_identifier` carrying its text |
| Lexer.Pull | kaleidoscope.cpp:338-342 | repeated getNextToken calls: once gettok has returned `tok_eof`, every later pull returns it too |
| Lexer.PullAgreesWithLexAll | kaleidoscope.cpp:338-342 | pulling tokens one at a time with getNextToken sees the same tokens as lexing everything first |
| Lexer.Lexer.constructor | kaleidoscope.cpp:54 | the pushback starts as `' '` in front of the input |
| Lexer.Lexer.GetChar | kaleidoscope.cpp:57 | getchar moves one character on, and stays at EOF |
| Lexer.Lexer.SkipWhitespace | kaleidoscope.cpp:56-58 | the loop ends where SkipSpace says |
| Lexer.Lexer.ReadIdentifier | kaleidoscope.cpp:60-65 | IdentifierString is the characters from the old pushback up to IdentEnd |
| Lexer.Lexer.ReadNumber | kaleidoscope.cpp:76-84 | NumStr and `decimal` are those of NumberEnd |
| Lexer.Lexer.SkipComment | kaleidoscope.cpp:94-97 | the loop ends at CommentEnd |
| Lexer.Lexer.GetTok | kaleidoscope.cpp:53-113 | the token and the new pushback are those of LexSpec |
| Lexer.Lexer.Tokenize | kaleidoscope.cpp:338-342 | calling gettok until tok_eof yields LexAll of the input |
| LexerProperties.IdentifierRun | kaleidoscope.cpp:60-74 | an identifier is the maximal run; it is `def`/`extern` exactly when the run spells that word; the next character is left as pushback |
| LexerProperties.NumberRun | kaleidoscope.cpp:76-93 | a number is a maximal run of digits with at most one `.`; the result is tok_error exactly when a second `.` follows; otherwise it is a number carrying the run's text |
| LexerProperties.CommentProducesNoToken | kaleidoscope.cpp:94-112 | a comment yields the tokens after its line end, or a single tok_error when it runs into EOF |
| LexerProperties.EofIsSticky | kaleidoscope.cpp:103-105 | after tok_eof all input is consumed and gettok keeps returning tok_eof |
| LexerProperties.OtherCharacter | kaleidoscope.cpp:106-110 | any other character is returned as itself and consumed |
| LexerProperties.SecondPointIsAnError | kaleidoscope.cpp:79-89 | `3.14.15` lexes as tok_error followed by the number `.15` |
| LexerProperties.LexOne | kaleidoscope.cpp:53-113 | a token's spelling followed by a space lexes back as that token |
| LexerProperties.LexRender | kaleidoscope.cpp:53-113 | round trip: lexing the rendering of lexable tokens gives exactly those tokens |
| Parser.Precedence | kaleidoscope.cpp:509-519 | getTokPrecedence with main's table: 10 for `<` `>`, 20 for `+` `-`, 40 for `*` `/`, -1 for everything else; positive exactly for table entries |
| Parser.Adv | kaleidoscope.cpp:338-342 | getNextToken advances by one token and stays put at the end |
| Parser.NumberExpr | kaleidoscope.cpp:417-422 | ParseNumberExpr consumes exactly the number |
| Parser.ParenExpr | kaleidoscope.cpp:425-437 | ParseParenExpr always consumes the `(`; it succeeds only when the token it stops after is `)`, and its tree uses only table operators |
| Parser.IdentifierExpr | kaleidoscope.cpp:442-479 | ParseIdentifierExpr consumes at least the identifier |
| Parser.CallArgs | kaleidoscope.cpp:457-471 | a successful argument loop reads at least one argument and stops at `)`; an argument followed by a token other than `,` or `)` fails there |
| Parser.Primary | kaleidoscope.cpp:486-504 | a successful ParsePrimary has consumed input, and its tree uses only table operators; a token other than a number, an identifier or `(` fails without consuming anything |
| Parser.Expression | kaleidoscope.cpp:530-543 | ParseExpression consumes input on success, and its tree uses only table operators |
| Parser.BinOpRHS | kaleidoscope.cpp:548-591 | ParseBinOpRHS keeps trees within the table's operators |
| Parser.ProtoParams | kaleidoscope.cpp:609-610 | the parameter loop reads exactly the run of identifiers and stops at a non-identifier |
| Parser.PrototypeDecl | kaleidoscope.cpp:596-621 | a prototype starts with its name token |
| Parser.Definition | kaleidoscope.cpp:625-644 | a definition consumes input; its name is an identifier token of the input and its body uses only table operators |
| Parser.ExternDecl | kaleidoscope.cpp:648-653 | an extern consumes input, and its name is an identifier token of the input |
| Parser.TopLevelExpr | kaleidoscope.cpp:657-668 | a top-level expression becomes a function named `""` without parameters |
| Parser.Parser.constructor | kaleidoscope.cpp:975 | CurTok starts at the first token |
| Parser.Parser.GetNextToken | kaleidoscope.cpp:338-342 | the cursor moves as Adv says, and the returned token is the new CurTok |
| Parser.Parser.ParseNumberExpr | kaleidoscope.cpp:417-422 | result and cursor are NumberExpr's |
| Parser.Parser.ParseParenExpr | kaleidoscope.cpp:425-437 | result and cursor are ParenExpr's |
| Parser.Parser.ParseIdentifierExpr | kaleidoscope.cpp:442-479 | result and cursor are IdentifierExpr's; the argument loop is proved against CallArgs |
| Parser.Parser.ParsePrimary | kaleidoscope.cpp:486-504 | result and cursor are Primary's |
| Parser.Parser.ParseExpression | kaleidoscope.cpp:530-543 | result and cursor are Expression's |
| Parser.Parser.ParseBinOpRHS | kaleidoscope.cpp:548-591 | result and cursor are BinOpRHS's; the while loop keeps the remaining climb equal to the original one |
| Parser.Parser.ParsePrototype | kaleidoscope.cpp:596-621 | result and cursor are PrototypeDecl's |
| Parser.Parser.ParseDefinition | kaleidoscope.cpp:625-644 | result and cursor are Definition's |
| Parser.Parser.ParseExtern | kaleidoscope.cpp:648-653 | result and cursor are ExternDecl's |
| Parser.Parser.ParseTopLevelExpr | kaleidoscope.cpp:657-668 | result and cursor are TopLevelExpr's |
| ParserProperties.Yield | kaleidoscope.cpp:548-591 | the reference reading of an operator tree as its token sequence, used to state ClimbChain and ChainParse; it has odd length, longer than one exactly for a binary node |
| ParserProperties.ClimbChain | kaleidoscope.cpp:548-591 | on an operator chain, ParseBinOpRHS succeeds; it stops at the first operator below ExprPrec, and it builds a tree that reads back as the consumed tokens and respects precedence |
| ParserProperties.PrecOrderedTreeUnique | kaleidoscope.cpp:548-591 | an operator chain has at most one tree that respects precedence and left associativity |
| ParserProperties.ChainParse | kaleidoscope.cpp:530-591 | ParseExpression reads a whole operator chain into its unique precedence-respecting, left-associative tree |
| ParserProperties.ThreeOperandGrouping | kaleidoscope.cpp:565-587 | `a op1 b op2 c` groups to the right exactly when op2 binds tighter than op1, and otherwise to the left |
| ParserProperties.ClimbStopsBelow | kaleidoscope.cpp:548-591 | ParseBinOpRHS returns LHS untouched below ExprPrec; when it succeeds, it has stopped below ExprPrec and its tree binds at ExprPrec at least |
| ParserProperties.ReparseArgs | kaleidoscope.cpp:457-471 | the argument loop reads back rendered arguments up to the `)` |
| ParserProperties.RoundTrip | kaleidoscope.cpp:417-591 | parsing the fully parenthesised rendering of a tree with table operators gives the tree back and consumes the whole rendering |
| ParserProperties.DefinitionExample | kaleidoscope.cpp:596-644 | `def foo(a b) a+b` parses into `foo` with parameters `a`, `b` and the body `a+b`, consuming all nine tokens |
| ParserProperties.PrototypeReadsParams | kaleidoscope.cpp:596-621 | a prototype's parameters are the identifier run after `(`, and the token after the run is consumed even when it is not `)` |
| ParserProperties.PrototypeNeedsNameAndParen | kaleidoscope.cpp:598-605 | without a name or a `(` the prototype fails; the name is consumed only when it is an identifier |
| CodeGen.Lower | kaleidoscope.cpp:673-757 | every diagnostic of lowering names something the expression uses that is really missing |
| CodeGen.LowerArgs | kaleidoscope.cpp:705-708 | the same for call arguments lowered left to right |
| CodeGen.LowerSucceedsIffResolves | kaleidoscope.cpp:673-757 | lowering succeeds exactly when every variable is bound, every callee is in the module with the call's arity, and every operator has an instruction |
| CodeGen.CallChecksBeforeArguments | kaleidoscope.cpp:688-706 | a missing callee, or a wrong arity, fails with that one diagnostic before any argument is lowered |
| CodeGen.OperatorCheckedLast | kaleidoscope.cpp:724-756 | the operands are lowered first; an operand failure gives the operands' diagnostics whatever the operator; otherwise the node fails exactly on an operator without an instruction |
| CodeGen.KnownOperatorsNeverInvalid | kaleidoscope.cpp:732-756 | an expression whose operators all have instructions never fails with "Invalid Operator" |
| CodeGen.Declare | kaleidoscope.cpp:759-773 | a prototype adds its name, as a body-less declaration with its parameters when the name is new, and changes no existing entry |
| CodeGen.Target | kaleidoscope.cpp:779-783 | the declaration a definition works on is the one its prototype leaves in the module: the existing entry, or a fresh body-less one |
| CodeGen.Define | kaleidoscope.cpp:775-820 | a definition's Symbols are its target's parameters; on failure the name is gone, on success it has a body with the target's parameters, and every other entry is untouched (erasing a function another body still calls is under Left out) |
| CodeGen.DefineEffect | kaleidoscope.cpp:775-820 | FunctionAST::codegen succeeds exactly when the body resolves against the existing declaration's parameter names; on success the function has a body, on failure it is erased, and every other function is untouched (erasing a function another body still calls is under Left out) |
| CodeGen.AnonymousLeavesModule | kaleidoscope.cpp:775-820 | the anonymous top-level function never changes the module |
| CodeGen.ExternNamesWin | kaleidoscope.cpp:779-798 | after `extern f(a)`, `def f(b) b` fails on `b` and erases f, while `def f(b) a` succeeds with the extern's parameters |
| CodeGen.RecursionResolves | kaleidoscope.cpp:779-783 | a function body may call the function being defined |
| CodeGen.Generator.constructor | kaleidoscope.cpp:890-911 | the module starts empty |
| CodeGen.Generator.LowerExpr | kaleidoscope.cpp:673-757 | the diagnostics are Lower's; the argument loop is proved against LowerArgs |
| CodeGen.Generator.GenPrototype | kaleidoscope.cpp:759-773 | the module becomes Declare's |
| CodeGen.Generator.GenFunction | kaleidoscope.cpp:775-820 | module, Symbols and diagnostics are Define's; the loop refills Symbols with the parameter names |
| CodeGen.Generator.Erase | kaleidoscope.cpp:818 | eraseFromParent removes exactly that name |
| Driver.Resume | kaleidoscope.cpp:836-842 | after a handler's parse the cursor stays where the parse stopped on success, and moves one token further on failure, never past the end |
| Driver.DefinitionStep | kaleidoscope.cpp:824-843 | HandleDefinition always consumes at least one token |
| Driver.ExternStep | kaleidoscope.cpp:846-865 | HandleExtern always consumes at least one token |
| Driver.TopLevelStep | kaleidoscope.cpp:867-888 | HandleTopLevelExpression always consumes at least one token |
| Driver.Step | kaleidoscope.cpp:914-935 | every MainLoop iteration before tok_eof consumes at least one token |
| Driver.Run | kaleidoscope.cpp:914-935 | MainLoop ends at tok_eof |
| Driver.ParsedOperatorsAreLowered | kaleidoscope.cpp:967-972 | the parser's operator table is exactly the operators codegen has instructions for, so a parsed body never fails with "Invalid Operator" |
| Driver.TopLevelKeepsModule | kaleidoscope.cpp:867-888 | a top-level expression leaves the module as it was |
| Driver.ParseFailureSkipsOneToken | kaleidoscope.cpp:824-888 | a handler whose parse fails leaves the module alone and skips one token past where the parse stopped |
| Driver.StepKeepsNames | kaleidoscope.cpp:914-935 | an iteration keeps the module free of unnamed functions, and every name in it comes from an identifier token |
| Driver.RunKeepsNames | kaleidoscope.cpp:914-935 | the same for the whole loop |
| Driver.ExpressionsOnlyKeepModule | kaleidoscope.cpp:914-935 | a session of only top-level expressions and `;` ends with the module it started with |
| Driver.Repl.HandleDefinition | kaleidoscope.cpp:824-843 | cursor and module are DefinitionStep's |
| Driver.Repl.HandleExtern | kaleidoscope.cpp:846-865 | cursor and module are ExternStep's |
| Driver.Repl.HandleTopLevelExpression | kaleidoscope.cpp:867-888 | cursor and module are TopLevelStep's |
| Driver.Repl.MainLoop | kaleidoscope.cpp:914-935 | cursor and module are Run's; the loop keeps the remaining run equal to the original one |
| Driver.Compile | kaleidoscope.cpp:966-992 | the whole program yields Run's module on the lexed input; it has no unnamed function, and every name in it is an identifier of the input |

## Left out

- LLVM itself is not modelled: IR construction, `verifyFunction`/`verifyModule`,
  the function pass manager, the JIT header and printing of IR. Codegen is
  modelled only as the success or failure, the diagnostics and the
  module/Symbols bookkeeping.
- Numbers keep their text. `strtod` and `double` values (`NumValue`) are not
  modelled, because floating point is out of scope.
- All I/O is left out: reading stdin (the input is a parameter), the
  `ready>` prompts and the diagnostic text of `LogError`/`LogErrorP`/`LogErrorV`.
  Parse failures are `None` and codegen failures are `Diag` values.
- `LispPrintVisitor`, `print_tok` and `oldmain` are debugging code that is
  disabled (`DEBUGPARSE` is not defined) or unused.
- Declare: LLVM's renaming of a second function with an existing name (it
  becomes `f.1`, a name no identifier can spell) is not modelled. The model leaves the existing entry
  unchanged, because the renamed function cannot be reached from the
  language.
- Duplicate parameter names are not modelled; LLVM renames them too.
  `Symbols` is the set of parameter names.
- CodeGen.Define: for a second definition of a function that already has a
  body, the model records only that the function still has a body. LLVM would
  append a second entry block.
- CodeGen.Define: a failed definition of a name that another function's
  body still calls (`def g(x) x  def h(x) g(x)  def g(y) z`, or
  `extern sin(x)  def f(x) sin(x)  def sin(y) y`) reaches
  `func->eraseFromParent()` (`kaleidoscope.cpp:818`) while uses remain. LLVM
  aborts there in a build with assertions and leaves a dangling call
  otherwise, which is undefined behaviour. The model simply removes the
  name, so `h` is left calling a `g` the module no longer holds;
  `CodeGen.DefineEffect` states the same erase.
- CodeGen.Lower: an argument that fails to lower makes the call fail with the
  argument's diagnostics. The C++ pushes a null value into the call, which is
  undefined behaviour.
- The byte collisions of `char LastChar` are not modelled. Where `char` is
  signed, a 0xFF byte compares equal to `EOF`, and the bytes 0xFA-0xFE come
  back from the single-character branch (`kaleidoscope.cpp:107-109`) as the
  codes of `tok_error`, `tok_identifier`, `tok_number`, `tok_extern` and
  `tok_def`. Where `char` is unsigned, `LastChar == EOF`
  (`kaleidoscope.cpp:103`) never holds, so gettok never returns `tok_eof` and
  MainLoop never ends. The model uses an explicit end-of-file sentinel, and
  `Driver.Run` ends only because of it.
- One Dafny `char` stands for one byte that `getchar` returns, so the input
  is read as ASCII or Latin-1. A `char` above 0xFF has no counterpart, and a
  multi-byte UTF-8 character, which gettok sees as several bytes, is one
  `char` in the model. Non-ASCII characters have no operator precedence, as
  `isascii` requires.
- `Symbols[Name]` in `VariableExprAST::codegen` inserts a null entry for a
  missing name. This cannot be observed, because Symbols is refilled before
  every body, so Symbols is a set.
- Unnamed top-level functions are never entered in the module map, because
  `getFunction` cannot find unnamed functions. The handler's
  `eraseFromParent` is modelled as removing the empty name, which does
  nothing.
- Lexer.Lexer.Tokenize: the parser reads a token sequence produced by lexing
  everything first. `Lexer.PullAgreesWithLexAll` shows that this equals
  pulling tokens lazily through getNextToken, but the interleaving of lexing
  and parsing is not modelled as such.
- Driver.Session: Symbols is not part of the session state between
  iterations, because every definition refills it before use.
