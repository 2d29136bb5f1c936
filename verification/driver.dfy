/** The driver of kaleidoscope.cpp: the top-level handlers and MainLoop,
    which dispatch on the current token, parse one item, generate code for
    it and recover from a parse failure by skipping one token. */
module Driver {
  import opened Wrappers
  import opened Lexer
  import opened Ast
  import opened Parser
  import opened CodeGen

  /** What persists from one iteration of MainLoop to the next: the cursor
      and the module. (Symbols is refilled before every use.) */
  datatype Session = Session(pos: nat, mod: Module)

  /** The cursor after a handler's parse that ended at p: where the parse
      stopped on success, one token further on failure. */
  function Resume(toks: seq<Token>, parsed: bool, p: nat): (r: nat)
    requires p <= |toks|
    ensures r <= |toks|
    ensures parsed ==> r == p
    ensures !parsed && p < |toks| ==> r == p + 1
  {
    if parsed then p else Adv(toks, p)
  }

  /** HandleDefinition. */
  function DefinitionStep(toks: seq<Token>, s: Session): (r: Session)
    requires s.pos < |toks| && toks[s.pos] == Def
    ensures s.pos < r.pos <= |toks|
  {
    var (f, p) := Definition(toks, s.pos);
    Session(Resume(toks, f.Some?, p), if f.Some? then Define(s.mod, f.value).mod else s.mod)
  }

  /** HandleExtern. */
  function ExternStep(toks: seq<Token>, s: Session): (r: Session)
    requires s.pos < |toks| && toks[s.pos] == Extern
    ensures s.pos < r.pos <= |toks|
  {
    var (p, q) := ExternDecl(toks, s.pos);
    Session(Resume(toks, p.Some?, q), if p.Some? then Declare(s.mod, p.value) else s.mod)
  }

  /** HandleTopLevelExpression: on success the anonymous function is erased
      again. */
  function TopLevelStep(toks: seq<Token>, s: Session): (r: Session)
    requires s.pos < |toks|
    ensures s.pos < r.pos <= |toks|
  {
    var (f, p) := TopLevelExpr(toks, s.pos);
    if f.None? then Session(Adv(toks, p), s.mod)
    else
      var out := Define(s.mod, f.value);
      Session(p, if out.diags == [] then out.mod - {f.value.proto.name} else out.mod)
  }

  /** One iteration of MainLoop at a token other than tok_eof. */
  function Step(toks: seq<Token>, s: Session): (r: Session)
    requires s.pos < |toks| && toks[s.pos] != Eof
    ensures s.pos < r.pos <= |toks|
  {
    if toks[s.pos] == Def then DefinitionStep(toks, s)
    else if toks[s.pos] == Extern then ExternStep(toks, s)
    else if toks[s.pos] == Char(';') then Session(s.pos + 1, s.mod)
    else TopLevelStep(toks, s)
  }

  /** MainLoop: iterate until tok_eof. Every iteration consumes at least one
      token, so the loop ends on every finite token sequence. */
  function Run(toks: seq<Token>, s: Session): (r: Session)
    requires s.pos <= |toks|
    ensures s.pos <= r.pos <= |toks| && TokenAt(toks, r.pos) == Eof
    decreases |toks| - s.pos
  {
    if TokenAt(toks, s.pos) == Eof then s else Run(toks, Step(toks, s))
  }

  // ---------------------------------------------------------------------
  // Properties of the session

  /** The operators the parser accepts are exactly those the code generator
      has instructions for, so no parsed expression fails with "Invalid
      Operator". */
  lemma ParsedOperatorsAreLowered(e: Expr, symbols: set<string>, mod: Module)
    requires OpsWithin(e, BinopPrecedence.Keys)
    ensures BinopPrecedence.Keys == Operators
    ensures forall i :: 0 <= i < |Lower(e, symbols, mod)| ==> !Lower(e, symbols, mod)[i].InvalidOperator?
  {
    assert BinopPrecedence.Keys == Operators;
    KnownOperatorsNeverInvalid(e, symbols, mod);
  }

  /** A top-level expression never changes the module: on success its
      function is erased by the handler, on failure by codegen, and on a
      parse failure nothing was generated. */
  lemma TopLevelKeepsModule(toks: seq<Token>, s: Session)
    requires s.pos < |toks| && "" !in s.mod
    ensures TopLevelStep(toks, s).mod == s.mod
  {
    var (f, p) := TopLevelExpr(toks, s.pos);
    if f.Some? {
      AnonymousLeavesModule(s.mod, f.value.body);
    }
  }

  /** A handler whose parse fails changes nothing but the cursor, and
      skips exactly one token past where the parse stopped. */
  lemma ParseFailureSkipsOneToken(toks: seq<Token>, s: Session)
    requires s.pos < |toks| && toks[s.pos] != Eof
    ensures toks[s.pos] == Def && Definition(toks, s.pos).0.None? ==>
      Step(toks, s) == Session(Adv(toks, Definition(toks, s.pos).1), s.mod)
    ensures toks[s.pos] == Extern && ExternDecl(toks, s.pos).0.None? ==>
      Step(toks, s) == Session(Adv(toks, ExternDecl(toks, s.pos).1), s.mod)
    ensures toks[s.pos] != Def && toks[s.pos] != Extern && toks[s.pos] != Char(';') && TopLevelExpr(toks, s.pos).0.None? ==>
      Step(toks, s) == Session(Adv(toks, TopLevelExpr(toks, s.pos).1), s.mod)
  {
  }

  /** The module never holds an unnamed function, and every name in it is
      the text of an identifier token of the input (or was there before). */
  predicate NamesFromTokens(toks: seq<Token>, before: Module, mod: Module) {
    && "" !in mod
    && forall n :: n in mod ==> n in before || Identifier(n) in toks
  }

  lemma StepKeepsNames(toks: seq<Token>, before: Module, s: Session)
    requires s.pos < |toks| && toks[s.pos] != Eof
    requires NamesFromTokens(toks, before, s.mod)
    ensures NamesFromTokens(toks, before, Step(toks, s).mod)
  {
    if toks[s.pos] == Def {
      var (f, p) := Definition(toks, s.pos);
      if f.Some? {
        var k :| s.pos < k < |toks| && toks[k] == Identifier(f.value.proto.name);
        DefineEffect(s.mod, f.value);
      }
    } else if toks[s.pos] == Extern {
      var (pr, q) := ExternDecl(toks, s.pos);
      if pr.Some? {
        var k :| s.pos < k < |toks| && toks[k] == Identifier(pr.value.name);
      }
    } else if toks[s.pos] != Char(';') {
      TopLevelKeepsModule(toks, s);
    }
  }

  lemma {:induction false} RunKeepsNames(toks: seq<Token>, before: Module, s: Session)
    requires s.pos <= |toks| && NamesFromTokens(toks, before, s.mod)
    ensures NamesFromTokens(toks, before, Run(toks, s).mod)
    decreases |toks| - s.pos
  {
    if TokenAt(toks, s.pos) != Eof {
      StepKeepsNames(toks, before, s);
      RunKeepsNames(toks, before, Step(toks, s));
    }
  }

  /** Top-level expressions and ';' never change the module: a session made
      only of those ends with the module it started with. */
  lemma {:induction false} ExpressionsOnlyKeepModule(toks: seq<Token>, s: Session)
    requires s.pos <= |toks| && "" !in s.mod
    requires forall k :: s.pos <= k < |toks| ==> toks[k] != Def && toks[k] != Extern
    ensures Run(toks, s).mod == s.mod
    decreases |toks| - s.pos
  {
    if TokenAt(toks, s.pos) != Eof {
      if toks[s.pos] != Char(';') {
        TopLevelKeepsModule(toks, s);
      }
      ExpressionsOnlyKeepModule(toks, Step(toks, s));
    }
  }

  // ---------------------------------------------------------------------
  // The imperative driver

  /** The parser and code generator MainLoop drives. */
  class Repl {
    const parser: Parser
    const gen: Generator

    ghost predicate Valid()
      reads this, parser, gen
    {
      parser.Valid() && gen.Valid()
    }

    ghost function State(): Session
      reads this, parser, gen
    {
      Session(parser.pos, gen.mod)
    }

    constructor (parser: Parser, gen: Generator)
      requires parser.Valid() && gen.Valid()
      ensures this.parser == parser && this.gen == gen && Valid()
    {
      this.parser := parser;
      this.gen := gen;
    }

    /** HandleDefinition. */
    method HandleDefinition()
      requires Valid() && parser.pos < |parser.toks| && parser.toks[parser.pos] == Def
      modifies parser, gen
      ensures Valid() && State() == DefinitionStep(parser.toks, old(State()))
    {
      var def := parser.ParseDefinition();
      if def.Some? {
        var _ := gen.GenFunction(def.value);
      } else {
        var _ := parser.GetNextToken();
      }
    }

    /** HandleExtern. */
    method HandleExtern()
      requires Valid() && parser.pos < |parser.toks| && parser.toks[parser.pos] == Extern
      modifies parser, gen
      ensures Valid() && State() == ExternStep(parser.toks, old(State()))
    {
      var extn := parser.ParseExtern();
      if extn.Some? {
        gen.GenPrototype(extn.value);
      } else {
        var _ := parser.GetNextToken();
      }
    }

    /** HandleTopLevelExpression. */
    method HandleTopLevelExpression()
      requires Valid() && parser.pos < |parser.toks|
      modifies parser, gen
      ensures Valid() && State() == TopLevelStep(parser.toks, old(State()))
    {
      var tle := parser.ParseTopLevelExpr();
      if tle.Some? {
        var diags := gen.GenFunction(tle.value);
        if diags == [] {
          gen.Erase(tle.value.proto.name);
        }
      } else {
        var _ := parser.GetNextToken();
      }
    }

    /** MainLoop. */
    method MainLoop()
      requires Valid()
      modifies parser, gen
      ensures Valid() && State() == Run(parser.toks, old(State()))
    {
      while true
        invariant Valid()
        invariant Run(parser.toks, State()) == Run(parser.toks, old(State()))
        decreases |parser.toks| - parser.pos
      {
        var tok := parser.CurTok();
        if tok == Eof {
          return;
        } else if tok == Def {
          HandleDefinition();
        } else if tok == Extern {
          HandleExtern();
        } else if tok == Char(';') {
          var _ := parser.GetNextToken();
        } else {
          HandleTopLevelExpression();
        }
      }
    }
  }

  /** The whole program on one input: lex it, parse and generate code item
      by item, and return the module. */
  method Compile(input: string) returns (mod: Module)
    ensures mod == Run(LexAll([' '] + input, 0), Session(0, map[])).mod
    ensures "" !in mod
    ensures forall n :: n in mod ==> Identifier(n) in LexAll([' '] + input, 0)
  {
    var lexer := new Lexer(input);
    var toks := lexer.Tokenize();
    var parser := new Parser(toks);
    var gen := new Generator();
    var repl := new Repl(parser, gen);
    repl.MainLoop();
    mod := gen.mod;
    RunKeepsNames(toks, map[], Session(0, map[]));
  }
}
