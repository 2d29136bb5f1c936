/** The bookkeeping of the code generator (the codegen members of the AST
    classes and FunctionAST::codegen) without LLVM. The module is a map from
    function name to what it records about the function; Symbols is the set
    of names bound while a body is lowered; lowering yields the diagnostics
    LogErrorV would print, and succeeds exactly when there are none. */
module CodeGen {
  import opened Wrappers
  import opened Ast

  /** What TheModule records about a function: its parameter names and
      whether a body has been generated for it. */
  datatype Decl = Decl(params: seq<string>, hasBody: bool)

  /** TheModule's functions by name. Unnamed functions (the anonymous
      top-level function) are never entered: getFunction cannot find them. */
  type Module = map<string, Decl>

  /** The failures LogErrorV reports while lowering an expression. */
  datatype Diag =
    | UndefinedReference(name: string)
    | UndefinedFunction(callee: string)
    | ArityMismatch(callee: string, given: nat)
    | InvalidOperator(op: char)

  /** The operators BinaryExprAST::codegen has an instruction for. */
  const Operators: set<char> := {'+', '-', '*', '/', '<', '>'}

  // ---------------------------------------------------------------------
  // What an expression uses: a reference definition of when lowering works

  /** The variables an expression reads, the (callee, argument count) pairs
      of its calls and the operators of its binary nodes. */
  datatype Uses = Uses(vars: set<string>, calls: set<(string, nat)>, ops: set<char>)

  function Union(a: Uses, b: Uses): Uses {
    Uses(a.vars + b.vars, a.calls + b.calls, a.ops + b.ops)
  }

  function UsesOf(e: Expr): Uses
    decreases e
  {
    match e
    case Num(_) => Uses({}, {}, {})
    case Variable(n) => Uses({n}, {}, {})
    case Call(f, args) => Union(Uses({}, {(f, |args|)}, {}), UsesOfAll(args))
    case Binary(op, l, r) => Union(Uses({}, {}, {op}), Union(UsesOf(l), UsesOf(r)))
  }

  function UsesOfAll(args: seq<Expr>): Uses
    decreases args
  {
    if args == [] then Uses({}, {}, {})
    else Union(UsesOfAll(args[..|args| - 1]), UsesOf(args[|args| - 1]))
  }

  /** Everything used is available: every variable is bound, every callee is
      in the module with the arity of the call, every operator has an
      instruction. */
  predicate Resolves(u: Uses, symbols: set<string>, mod: Module) {
    && u.vars <= symbols
    && (forall c :: c in u.calls ==> c.0 in mod && |mod[c.0].params| == c.1)
    && u.ops <= Operators
  }

  /** A diagnostic names something that really is used and really is
      missing. */
  ghost predicate Explains(d: Diag, u: Uses, symbols: set<string>, mod: Module) {
    match d
    case UndefinedReference(n) => n in u.vars && n !in symbols
    case UndefinedFunction(f) => (exists n :: (f, n) in u.calls) && f !in mod
    case ArityMismatch(f, n) => (f, n) in u.calls && f in mod && |mod[f].params| != n
    case InvalidOperator(op) => op in u.ops && op !in Operators
  }

  // ---------------------------------------------------------------------
  // Lowering

  /** The diagnostics of ExprAST::codegen for e, with Symbols and TheModule
      as given; e lowers successfully exactly when the result is empty. A
      call checks its callee and arity before lowering any argument; a
      binary node lowers both operands, and only when both succeed looks at
      its operator. */
  function Lower(e: Expr, symbols: set<string>, mod: Module): (d: seq<Diag>)
    ensures forall i :: 0 <= i < |d| ==> Explains(d[i], UsesOf(e), symbols, mod)
    decreases e
  {
    match e
    case Num(_) => []
    case Variable(n) => if n in symbols then [] else [UndefinedReference(n)]
    case Call(f, args) =>
      if f !in mod then [UndefinedFunction(f)]
      else if |args| != |mod[f].params| then [ArityMismatch(f, |args|)]
      else LowerArgs(args, symbols, mod)
    case Binary(op, l, r) =>
      var dl := Lower(l, symbols, mod);
      var dr := Lower(r, symbols, mod);
      if dl != [] || dr != [] then dl + dr
      else if op in Operators then []
      else [InvalidOperator(op)]
  }

  /** The diagnostics of lowering call arguments left to right. */
  function LowerArgs(args: seq<Expr>, symbols: set<string>, mod: Module): (d: seq<Diag>)
    ensures forall i :: 0 <= i < |d| ==> Explains(d[i], UsesOfAll(args), symbols, mod)
    decreases args
  {
    if args == [] then []
    else LowerArgs(args[..|args| - 1], symbols, mod) + Lower(args[|args| - 1], symbols, mod)
  }

  /** Lowering succeeds exactly when everything the expression uses
      resolves. */
  lemma {:induction false} LowerSucceedsIffResolves(e: Expr, symbols: set<string>, mod: Module)
    ensures Lower(e, symbols, mod) == [] <==> Resolves(UsesOf(e), symbols, mod)
    decreases e
  {
    var d := Lower(e, symbols, mod);
    if d != [] {
      assert Explains(d[0], UsesOf(e), symbols, mod);
    }
    match e
    case Num(_) =>
    case Variable(_) =>
    case Call(f, args) =>
      LowerArgsSucceedsIffResolves(args, symbols, mod);
    case Binary(op, l, r) =>
      LowerSucceedsIffResolves(l, symbols, mod);
      LowerSucceedsIffResolves(r, symbols, mod);
  }

  lemma {:induction false} LowerArgsSucceedsIffResolves(args: seq<Expr>, symbols: set<string>, mod: Module)
    ensures LowerArgs(args, symbols, mod) == [] <==> Resolves(UsesOfAll(args), symbols, mod)
    decreases args
  {
    if args != [] {
      LowerArgsSucceedsIffResolves(args[..|args| - 1], symbols, mod);
      LowerSucceedsIffResolves(args[|args| - 1], symbols, mod);
    }
  }

  /** A call whose callee is missing, or whose arity is wrong, fails with
      that one diagnostic whatever its arguments are: the arguments are not
      lowered. */
  lemma CallChecksBeforeArguments(f: string, args: seq<Expr>, symbols: set<string>, mod: Module)
    ensures f !in mod ==> Lower(Call(f, args), symbols, mod) == [UndefinedFunction(f)]
    ensures f in mod && |args| != |mod[f].params| ==>
      Lower(Call(f, args), symbols, mod) == [ArityMismatch(f, |args|)]
  {
  }

  /** A binary node lowers both operands before it looks at its operator:
      when an operand fails, the diagnostics are the operands' whatever the
      operator is; when both succeed, the node fails exactly when the
      operator has no instruction. */
  lemma OperatorCheckedLast(op: char, other: char, l: Expr, r: Expr, symbols: set<string>, mod: Module)
    ensures Lower(l, symbols, mod) != [] || Lower(r, symbols, mod) != [] ==>
      Lower(Binary(op, l, r), symbols, mod) == Lower(Binary(other, l, r), symbols, mod)
        == Lower(l, symbols, mod) + Lower(r, symbols, mod)
    ensures Lower(l, symbols, mod) == [] && Lower(r, symbols, mod) == [] ==>
      (Lower(Binary(op, l, r), symbols, mod) == [] <==> op in Operators)
  {
  }

  lemma {:induction false} OpsWithinUses(e: Expr, ops: set<char>)
    requires OpsWithin(e, ops)
    ensures UsesOf(e).ops <= ops
    decreases e
  {
    match e
    case Num(_) =>
    case Variable(_) =>
    case Call(_, args) =>
      OpsWithinUsesAll(args, ops);
    case Binary(_, l, r) =>
      OpsWithinUses(l, ops);
      OpsWithinUses(r, ops);
  }

  lemma {:induction false} OpsWithinUsesAll(args: seq<Expr>, ops: set<char>)
    requires forall i :: 0 <= i < |args| ==> OpsWithin(args[i], ops)
    ensures UsesOfAll(args).ops <= ops
    decreases args
  {
    if args != [] {
      OpsWithinUsesAll(args[..|args| - 1], ops);
      OpsWithinUses(args[|args| - 1], ops);
    }
  }

  /** An expression whose operators all come from the codegen's set never
      fails with "Invalid Operator". */
  lemma KnownOperatorsNeverInvalid(e: Expr, symbols: set<string>, mod: Module)
    requires OpsWithin(e, Operators)
    ensures forall i :: 0 <= i < |Lower(e, symbols, mod)| ==> !Lower(e, symbols, mod)[i].InvalidOperator?
  {
    OpsWithinUses(e, Operators);
  }

  // ---------------------------------------------------------------------
  // Prototypes and functions

  /** The parameter names as a set: the keys Symbols is refilled with. */
  function ParamSet(params: seq<string>): set<string> {
    set x | x in params
  }

  /** PrototypeAST::codegen: a new declaration without a body. A name that
      is already taken is left alone (LLVM gives the new function a fresh
      name no identifier can spell) and the unnamed prototype of a
      top-level expression is not entered. */
  function Declare(mod: Module, p: Prototype): (m: Module)
    ensures p.name != "" ==> p.name in m
    ensures forall n :: n in mod ==> n in m && m[n] == mod[n]
    ensures forall n :: n in m ==> n in mod || n == p.name
    ensures p.name != "" && p.name !in mod ==> m[p.name] == Decl(p.params, false)
  {
    if p.name == "" || p.name in mod then mod else mod[p.name := Decl(p.params, false)]
  }

  /** The declaration FunctionAST::codegen works on: the one the module
      already has under that name, or the one its own prototype creates. */
  function Target(mod: Module, p: Prototype): (d: Decl)
    ensures p.name != "" ==> Declare(mod, p)[p.name] == d
  {
    if p.name in mod then mod[p.name] else Decl(p.params, false)
  }

  /** The state after FunctionAST::codegen. */
  datatype Outcome = Outcome(mod: Module, symbols: set<string>, diags: seq<Diag>)

  /** FunctionAST::codegen: the body is lowered with Symbols holding the
      target declaration's parameter names and the function already in the
      module (so recursion resolves); on success the function has a body,
      on failure it is erased from the module. */
  function Define(mod: Module, f: Function): (out: Outcome)
    ensures out.symbols == ParamSet(Target(mod, f.proto).params)
    ensures out.diags != [] ==> f.proto.name !in out.mod
    ensures out.diags == [] && f.proto.name != "" ==>
      f.proto.name in out.mod && out.mod[f.proto.name] == Decl(Target(mod, f.proto).params, true)
    ensures forall n :: n != f.proto.name ==> (n in out.mod <==> n in mod)
    ensures forall n :: n != f.proto.name && n in mod ==> out.mod[n] == mod[n]
  {
    var name := f.proto.name;
    var decl := Target(mod, f.proto);
    var symbols := ParamSet(decl.params);
    var diags := Lower(f.body, symbols, Declare(mod, f.proto));
    if diags != [] then Outcome(mod - {name}, symbols, diags)
    else if name == "" then Outcome(mod, symbols, diags)
    else Outcome(mod[name := Decl(decl.params, true)], symbols, diags)
  }

  /** What FunctionAST::codegen does to the module: it succeeds exactly when
      the body resolves against the target's parameter names; the names
      bound are those of the declaration already present (an extern's names
      win over the definition's); on success the function is present with a
      body and the target's parameters, on failure it is absent even if it
      was declared before; every other function is untouched. */
  lemma DefineEffect(mod: Module, f: Function)
    ensures var name, out := f.proto.name, Define(mod, f);
      var params := if name in mod then mod[name].params else f.proto.params;
      && (out.diags == [] <==> Resolves(UsesOf(f.body), ParamSet(params), Declare(mod, f.proto)))
      && out.symbols == ParamSet(params)
      && (out.diags == [] && name != "" ==> name in out.mod && out.mod[name] == Decl(params, true))
      && (out.diags != [] ==> name !in out.mod)
      && (forall n :: n != name ==> (n in out.mod <==> n in mod))
      && (forall n :: n != name && n in mod ==> out.mod[n] == mod[n])
  {
    var decl := Target(mod, f.proto);
    LowerSucceedsIffResolves(f.body, ParamSet(decl.params), Declare(mod, f.proto));
  }

  /** The anonymous function of a top-level expression never changes the
      mod, whether its body lowers or not. */
  lemma AnonymousLeavesModule(mod: Module, body: Expr)
    requires "" !in mod
    ensures Define(mod, Function(Prototype("", []), body)).mod == mod
  {
  }

  /** extern f(a); def f(b) b: the definition binds the extern's name a, so
      b is undefined, and the failure erases f, extern included. With body a
      the same definition succeeds and keeps the extern's parameter list. */
  lemma ExternNamesWin()
    ensures var m := map["f" := Decl(["a"], false)];
      && Define(m, Function(Prototype("f", ["b"]), Variable("b"))) == Outcome(map[], {"a"}, [UndefinedReference("b")])
      && Define(m, Function(Prototype("f", ["b"]), Variable("a"))).mod == map["f" := Decl(["a"], true)]
  {
    var m := map["f" := Decl(["a"], false)];
    assert ParamSet(["a"]) == {"a"} by {
      assert "a" in ["a"];
    }
    assert m - {"f"} == map[];
  }

  /** def f(x) f(x): the body may call the function being defined. */
  lemma RecursionResolves()
    ensures Define(map[], Function(Prototype("f", ["x"]), Call("f", [Variable("x")]))).diags == []
  {
    assert "x" in ParamSet(["x"]);
    var args := [Variable("x")];
    assert args[..0] == [];
    assert LowerArgs(args, ParamSet(["x"]), map["f" := Decl(["x"], false)]) == [];
  }

  // ---------------------------------------------------------------------
  // The generator's state

  /** The code generator: TheModule and the Symbols table. */
  class Generator {
    var mod: Module
    var symbols: set<string>

    ghost predicate Valid()
      reads this
    {
      "" !in mod
    }

    /** InitializeModuleAndPassManager: an empty module. */
    constructor ()
      ensures mod == map[] && symbols == {} && Valid()
    {
      mod := map[];
      symbols := {};
    }

    /** ExprAST::codegen. */
    method LowerExpr(e: Expr) returns (diags: seq<Diag>)
      ensures diags == Lower(e, symbols, mod)
      decreases e
    {
      match e
      case Num(_) =>
        diags := [];
      case Variable(n) =>
        diags := if n in symbols then [] else [UndefinedReference(n)];
      case Call(f, args) =>
        if f !in mod {
          diags := [UndefinedFunction(f)];
        } else if |args| != |mod[f].params| {
          diags := [ArityMismatch(f, |args|)];
        } else {
          diags := [];
          for i := 0 to |args|
            invariant diags == LowerArgs(args[..i], symbols, mod)
          {
            var d := LowerExpr(args[i]);
            assert args[..i + 1][..i] == args[..i];
            diags := diags + d;
          }
          assert args[..|args|] == args;
        }
      case Binary(op, l, r) =>
        var dl := LowerExpr(l);
        var dr := LowerExpr(r);
        if dl != [] || dr != [] {
          diags := dl + dr;
        } else if op in Operators {
          diags := [];
        } else {
          diags := [InvalidOperator(op)];
        }
    }

    /** PrototypeAST::codegen. */
    method GenPrototype(p: Prototype)
      requires Valid()
      modifies this
      ensures Valid() && mod == Declare(old(mod), p) && symbols == old(symbols)
    {
      if p.name != "" && p.name !in mod {
        mod := mod[p.name := Decl(p.params, false)];
      }
    }

    /** FunctionAST::codegen; it succeeds exactly when diags is empty. */
    method GenFunction(f: Function) returns (diags: seq<Diag>)
      requires Valid()
      modifies this
      ensures Valid() && Outcome(mod, symbols, diags) == Define(old(mod), f)
    {
      var name := f.proto.name;
      var decl := Target(mod, f.proto);
      if name !in mod {
        GenPrototype(f.proto);
      }
      symbols := {};
      for i := 0 to |decl.params|
        invariant symbols == ParamSet(decl.params[..i])
        invariant mod == Declare(old(mod), f.proto) && Valid()
      {
        assert decl.params[..i + 1] == decl.params[..i] + [decl.params[i]];
        symbols := symbols + {decl.params[i]};
      }
      assert decl.params[..|decl.params|] == decl.params;
      diags := LowerExpr(f.body);
      if diags != [] {
        mod := mod - {name};
      } else if name != "" {
        mod := mod[name := Decl(decl.params, true)];
      }
    }

    /** Function::eraseFromParent. */
    method Erase(name: string)
      requires Valid()
      modifies this
      ensures Valid() && mod == old(mod) - {name} && symbols == old(symbols)
    {
      mod := mod - {name};
    }
  }
}
