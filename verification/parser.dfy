/** The recursive-descent parser of kaleidoscope.cpp. The C++ parser keeps
    the current token in the global CurTok and advances it with
    getNextToken(); here the tokens gettok would return are a sequence and
    CurTok is the token at a cursor (tok_eof past the end). Each Parse*
    routine is specified by a function of (tokens, cursor) that yields the
    parsed tree, or None where the C++ returns nullptr, together with the
    cursor it leaves behind: the driver's error recovery depends on where a
    failed parse stops. */
module Parser {
  import opened Wrappers
  import opened Lexer
  import opened Ast

  /** BinopPrecedence as main() installs it. */
  const BinopPrecedence: map<char, int> :=
    map['>' := 10, '<' := 10, '+' := 20, '-' := 20, '*' := 40, '/' := 40]

  /** getTokPrecedence applied to the token t: -1 for anything that is not an
      ASCII character with a positive entry in BinopPrecedence (a missing
      entry reads as 0, as std::map::operator[] makes it). */
  function Precedence(t: Token): (p: int)
    ensures p == (if t == Char('<') || t == Char('>') then 10
                  else if t == Char('+') || t == Char('-') then 20
                  else if t == Char('*') || t == Char('/') then 40
                  else -1)
    ensures p > 0 <==> t.Char? && t.c in BinopPrecedence
  {
    if !t.Char? || t.c as int >= 128 then -1
    else
      var entry := if t.c in BinopPrecedence then BinopPrecedence[t.c] else 0;
      if entry <= 0 then -1 else entry
  }

  /** getNextToken: the cursor moves on, except at the end, where gettok
      keeps returning tok_eof. */
  function Adv(toks: seq<Token>, pos: nat): (p: nat)
    requires pos <= |toks|
    ensures p <= |toks|
    ensures TokenAt(toks, pos) != Eof ==> p == pos + 1
    ensures p == pos + 1 || p == pos == |toks|
  {
    if pos < |toks| then pos + 1 else pos
  }

  // The parse functions. Each returns (tree or None, cursor afterwards).
  // The second component of `decreases` orders the routines that call each
  // other without consuming a token first.

  /** ParseNumberExpr. */
  function NumberExpr(toks: seq<Token>, pos: nat): (r: (Option<Expr>, nat))
    requires pos <= |toks| && TokenAt(toks, pos).Number?
    ensures r.1 == pos + 1 <= |toks|
  {
    (Some(Num(TokenAt(toks, pos).text)), Adv(toks, pos))
  }

  /** ParseParenExpr: '(' expression ')'. A missing ')' fails where the
      expression stopped; a present ')' is consumed even when the expression
      failed. */
  function ParenExpr(toks: seq<Token>, pos: nat): (r: (Option<Expr>, nat))
    requires pos <= |toks| && TokenAt(toks, pos) == Char('(')
    ensures pos < r.1 <= |toks|
    ensures r.0.Some? ==> OpsWithin(r.0.value, BinopPrecedence.Keys)
    ensures r.0.Some? ==> toks[r.1 - 1] == Char(')')
    decreases |toks| - pos, 1
  {
    var (v, p1) := Expression(toks, Adv(toks, pos));
    if TokenAt(toks, p1) != Char(')') then (None, p1) else (v, Adv(toks, p1))
  }

  /** ParseIdentifierExpr: a variable, or a call with a parenthesised,
      comma-separated argument list. */
  function IdentifierExpr(toks: seq<Token>, pos: nat): (r: (Option<Expr>, nat))
    requires pos <= |toks| && TokenAt(toks, pos).Identifier?
    ensures pos < r.1 <= |toks|
    ensures r.0.Some? ==> OpsWithin(r.0.value, BinopPrecedence.Keys)
    decreases |toks| - pos, 1
  {
    var name := TokenAt(toks, pos).name;
    var p1 := Adv(toks, pos);
    if TokenAt(toks, p1) != Char('(') then (Some(Variable(name)), p1)
    else
      var p2 := Adv(toks, p1);
      if TokenAt(toks, p2) == Char(')') then (Some(Call(name, [])), Adv(toks, p2))
      else
        var (args, p3) := CallArgs(toks, p2);
        if args.None? then (None, p3) else (Some(Call(name, args.value)), Adv(toks, p3))
  }

  /** The argument loop of ParseIdentifierExpr: expressions separated by ','
      up to (not including) the closing ')'. */
  function CallArgs(toks: seq<Token>, pos: nat): (r: (Option<seq<Expr>>, nat))
    requires pos <= |toks|
    ensures pos <= r.1 <= |toks|
    ensures r.0.Some? ==> |r.0.value| > 0 && TokenAt(toks, r.1) == Char(')')
    ensures r.0.Some? ==> forall i :: 0 <= i < |r.0.value| ==> OpsWithin(r.0.value[i], BinopPrecedence.Keys)
    ensures var (e, p1) := Expression(toks, pos);
      e.Some? && TokenAt(toks, p1) != Char(')') && TokenAt(toks, p1) != Char(',') ==> r == (None, p1)
    decreases |toks| - pos, 4
  {
    var (e, p1) := Expression(toks, pos);
    if e.None? then (None, p1)
    else if TokenAt(toks, p1) == Char(')') then (Some([e.value]), p1)
    else if TokenAt(toks, p1) != Char(',') then (None, p1)
    else
      var (rest, p2) := CallArgs(toks, Adv(toks, p1));
      if rest.None? then (None, p2) else (Some([e.value] + rest.value), p2)
  }

  /** ParsePrimary: dispatch on the current token; anything else fails
      without consuming it. */
  function Primary(toks: seq<Token>, pos: nat): (r: (Option<Expr>, nat))
    requires pos <= |toks|
    ensures pos <= r.1 <= |toks|
    ensures r.0.Some? ==> r.1 > pos && OpsWithin(r.0.value, BinopPrecedence.Keys)
    ensures var t := TokenAt(toks, pos); !(t.Number? || t.Identifier? || t == Char('(')) ==> r == (None, pos)
    decreases |toks| - pos, 2
  {
    match TokenAt(toks, pos)
    case Number(_) => NumberExpr(toks, pos)
    case Identifier(_) => IdentifierExpr(toks, pos)
    case Char(c) => if c == '(' then ParenExpr(toks, pos) else (None, pos)
    case _ => (None, pos)
  }

  /** ParseExpression: a primary followed by its operator tail. */
  function Expression(toks: seq<Token>, pos: nat): (r: (Option<Expr>, nat))
    requires pos <= |toks|
    ensures pos <= r.1 <= |toks|
    ensures r.0.Some? ==> r.1 > pos && OpsWithin(r.0.value, BinopPrecedence.Keys)
    decreases |toks| - pos, 3
  {
    var (lhs, p1) := Primary(toks, pos);
    if lhs.None? then (None, p1) else BinOpRHS(toks, 0, lhs.value, p1)
  }

  /** ParseBinOpRHS(ExprPrec, LHS): precedence climbing. The loop of the C++
      is the tail call; an operator that binds tighter than the one just read
      is absorbed into the right operand by the inner call at TokPrec + 1.
      The C++ only ever passes 0 or a precedence plus one, hence `nat`. */
  function BinOpRHS(toks: seq<Token>, exprPrec: nat, lhs: Expr, pos: nat): (r: (Option<Expr>, nat))
    requires pos <= |toks|
    ensures pos <= r.1 <= |toks|
    ensures r.0.Some? && OpsWithin(lhs, BinopPrecedence.Keys) ==> OpsWithin(r.0.value, BinopPrecedence.Keys)
    decreases |toks| - pos, 0
  {
    var tokPrec := Precedence(TokenAt(toks, pos));
    if tokPrec < exprPrec then (Some(lhs), pos)
    else
      var binOp := TokenAt(toks, pos).c;
      var (rhs, p2) := Primary(toks, Adv(toks, pos));
      var nextPrec := Precedence(TokenAt(toks, p2));
      if rhs.None? then (None, p2)
      else if nextPrec > tokPrec then
        var (rhs2, p3) := BinOpRHS(toks, tokPrec + 1, rhs.value, p2);
        if rhs2.None? then (None, p3)
        else BinOpRHS(toks, exprPrec, Binary(binOp, lhs, rhs2.value), p3)
      else
        BinOpRHS(toks, exprPrec, Binary(binOp, lhs, rhs.value), p2)
  }

  /** The parameter loop of ParsePrototype: the run of identifiers at pos. */
  function ProtoParams(toks: seq<Token>, pos: nat): (r: (seq<string>, nat))
    requires pos <= |toks|
    ensures pos <= r.1 <= |toks| && r.1 == pos + |r.0|
    ensures forall k :: 0 <= k < |r.0| ==> toks[pos + k] == Identifier(r.0[k])
    ensures !TokenAt(toks, r.1).Identifier?
    decreases |toks| - pos
  {
    if TokenAt(toks, pos).Identifier? then
      var (names, p) := ProtoParams(toks, Adv(toks, pos));
      ([TokenAt(toks, pos).name] + names, p)
    else
      ([], pos)
  }

  /** ParsePrototype: identifier '(' identifier* ')'. The closing token is
      consumed whatever it is: a missing ')' is only logged. */
  function PrototypeDecl(toks: seq<Token>, pos: nat): (r: (Option<Prototype>, nat))
    requires pos <= |toks|
    ensures pos <= r.1 <= |toks|
    ensures r.0.Some? ==> r.1 > pos && TokenAt(toks, pos) == Identifier(r.0.value.name)
    decreases |toks| - pos
  {
    if !TokenAt(toks, pos).Identifier? then (None, pos)
    else
      var name := TokenAt(toks, pos).name;
      var p1 := Adv(toks, pos);
      if TokenAt(toks, p1) != Char('(') then (None, p1)
      else
        var (params, p2) := ProtoParams(toks, Adv(toks, p1));
        (Some(Prototype(name, params)), Adv(toks, p2))
  }

  /** ParseDefinition: eats 'def', then a prototype and a body expression. */
  function Definition(toks: seq<Token>, pos: nat): (r: (Option<Function>, nat))
    requires pos <= |toks|
    ensures pos <= r.1 <= |toks|
    ensures r.0.Some? ==> r.1 > pos && OpsWithin(r.0.value.body, BinopPrecedence.Keys)
    ensures r.0.Some? ==> exists k :: pos < k < |toks| && toks[k] == Identifier(r.0.value.proto.name)
  {
    var (proto, p1) := PrototypeDecl(toks, Adv(toks, pos));
    if proto.None? then (None, p1)
    else
      var (body, p2) := Expression(toks, p1);
      if body.None? then (None, p2) else (Some(Function(proto.value, body.value)), p2)
  }

  /** ParseExtern: eats 'extern', then a prototype. */
  function ExternDecl(toks: seq<Token>, pos: nat): (r: (Option<Prototype>, nat))
    requires pos <= |toks|
    ensures pos <= r.1 <= |toks|
    ensures r.0.Some? ==> r.1 > pos && exists k :: pos < k < |toks| && toks[k] == Identifier(r.0.value.name)
  {
    PrototypeDecl(toks, Adv(toks, pos))
  }

  /** ParseTopLevelExpr: an expression wrapped in an anonymous function with
      the name "" and no parameters. */
  function TopLevelExpr(toks: seq<Token>, pos: nat): (r: (Option<Function>, nat))
    requires pos <= |toks|
    ensures pos <= r.1 <= |toks|
    ensures r.0.Some? ==> r.1 > pos && r.0.value.proto == Prototype("", [])
  {
    var (e, p1) := Expression(toks, pos);
    if e.None? then (None, p1) else (Some(Function(Prototype("", []), e.value)), p1)
  }

  /** The parser state: the token stream and the CurTok cursor. */
  class Parser {
    const toks: seq<Token>
    var pos: nat

    ghost predicate Valid()
      reads this
    {
      pos <= |toks|
    }

    /** The parser before main's first getNextToken has been read: CurTok is
        the first token. */
    constructor (toks: seq<Token>)
      ensures this.toks == toks && pos == 0 && Valid()
    {
      this.toks := toks;
      pos := 0;
    }

    /** CurTok. */
    function CurTok(): Token
      reads this
    {
      TokenAt(toks, pos)
    }

    /** getNextToken. */
    method GetNextToken() returns (t: Token)
      requires Valid()
      modifies this
      ensures Valid() && pos == Adv(toks, old(pos)) && t == CurTok()
    {
      if pos < |toks| {
        pos := pos + 1;
      }
      t := CurTok();
    }

    method ParseNumberExpr() returns (e: Option<Expr>)
      requires Valid() && CurTok().Number?
      modifies this
      ensures Valid() && (e, pos) == NumberExpr(toks, old(pos))
    {
      e := Some(Num(CurTok().text));
      var _ := GetNextToken();
    }

    method ParseParenExpr() returns (e: Option<Expr>)
      requires Valid() && CurTok() == Char('(')
      modifies this
      ensures Valid() && (e, pos) == ParenExpr(toks, old(pos))
      decreases |toks| - pos, 1
    {
      var _ := GetNextToken();
      var v := ParseExpression();
      if CurTok() != Char(')') {
        return None;
      }
      var _ := GetNextToken();
      e := v;
    }

    method ParseIdentifierExpr() returns (e: Option<Expr>)
      requires Valid() && CurTok().Identifier?
      modifies this
      ensures Valid() && (e, pos) == IdentifierExpr(toks, old(pos))
      decreases |toks| - pos, 1
    {
      var idName := CurTok().name;
      var _ := GetNextToken();
      if CurTok() != Char('(') {
        return Some(Variable(idName));
      }
      var _ := GetNextToken();
      var args: seq<Expr> := [];
      if CurTok() != Char(')') {
        ghost var p2 := pos;
        assert CallArgs(toks, p2).0.Some? ==> args + CallArgs(toks, p2).0.value == CallArgs(toks, p2).0.value;
        while true
          invariant Valid() && p2 <= pos
          invariant CallArgs(toks, p2).1 == CallArgs(toks, pos).1
          invariant CallArgs(toks, p2).0 ==
            if CallArgs(toks, pos).0.Some? then Some(args + CallArgs(toks, pos).0.value) else None
          decreases |toks| - pos
        {
          ghost var before, done := pos, args;
          var v := ParseExpression();
          if v.None? {
            return None;
          }
          args := args + [v.value];
          if CurTok() == Char(')') {
            break;
          }
          if CurTok() != Char(',') {
            return None;
          }
          var _ := GetNextToken();
          if CallArgs(toks, pos).0.Some? {
            assert CallArgs(toks, before).0.value == [v.value] + CallArgs(toks, pos).0.value;
            assert done + ([v.value] + CallArgs(toks, pos).0.value) == args + CallArgs(toks, pos).0.value;
          }
        }
      }
      var _ := GetNextToken();
      e := Some(Call(idName, args));
    }

    method ParsePrimary() returns (e: Option<Expr>)
      requires Valid()
      modifies this
      ensures Valid() && (e, pos) == Primary(toks, old(pos))
      decreases |toks| - pos, 2
    {
      match CurTok()
      case Number(_) =>
        e := ParseNumberExpr();
      case Identifier(_) =>
        e := ParseIdentifierExpr();
      case Char(c) =>
        if c == '(' {
          e := ParseParenExpr();
        } else {
          e := None;
        }
      case _ =>
        e := None;
    }

    method ParseExpression() returns (e: Option<Expr>)
      requires Valid()
      modifies this
      ensures Valid() && (e, pos) == Expression(toks, old(pos))
      decreases |toks| - pos, 3
    {
      var lhs := ParsePrimary();
      if lhs.None? {
        return None;
      }
      e := ParseBinOpRHS(0, lhs.value);
    }

    method ParseBinOpRHS(exprPrec: nat, lhs: Expr) returns (e: Option<Expr>)
      requires Valid()
      modifies this
      ensures Valid() && (e, pos) == BinOpRHS(toks, exprPrec, lhs, old(pos))
      decreases |toks| - pos, 0
    {
      var acc := lhs;
      while true
        invariant Valid() && old(pos) <= pos
        invariant BinOpRHS(toks, exprPrec, acc, pos) == BinOpRHS(toks, exprPrec, lhs, old(pos))
        decreases |toks| - pos
      {
        var tokPrec := Precedence(CurTok());
        if tokPrec < exprPrec {
          return Some(acc);
        }
        var binOp := CurTok().c;
        var _ := GetNextToken();
        var rhs := ParsePrimary();
        var nextPrec := Precedence(CurTok());
        if rhs.None? {
          return None;
        }
        var r := rhs.value;
        if nextPrec > tokPrec {
          var rhs2 := ParseBinOpRHS(tokPrec + 1, r);
          if rhs2.None? {
            return None;
          }
          r := rhs2.value;
        }
        acc := Binary(binOp, acc, r);
      }
    }

    method ParsePrototype() returns (p: Option<Prototype>)
      requires Valid()
      modifies this
      ensures Valid() && (p, pos) == PrototypeDecl(toks, old(pos))
    {
      if !CurTok().Identifier? {
        return None;
      }
      var functionName := CurTok().name;
      var _ := GetNextToken();
      if CurTok() != Char('(') {
        return None;
      }
      var params: seq<string> := [];
      var t := GetNextToken();
      ghost var start := pos;
      while t.Identifier?
        invariant Valid() && start <= pos && t == CurTok()
        invariant ProtoParams(toks, start).0 == params + ProtoParams(toks, pos).0
        invariant ProtoParams(toks, start).1 == ProtoParams(toks, pos).1
        decreases |toks| - pos
      {
        params := params + [t.name];
        t := GetNextToken();
      }
      assert ProtoParams(toks, pos).0 == [];
      assert params == ProtoParams(toks, start).0;
      // A token other than ')' here is only logged ("Expected ',' in
      // prototype"); it is consumed below like the ')' it stands for.
      var _ := GetNextToken();
      p := Some(Prototype(functionName, params));
    }

    method ParseDefinition() returns (f: Option<Function>)
      requires Valid()
      modifies this
      ensures Valid() && (f, pos) == Definition(toks, old(pos))
    {
      var _ := GetNextToken();
      var proto := ParsePrototype();
      if proto.None? {
        return None;
      }
      var e := ParseExpression();
      if e.None? {
        return None;
      }
      f := Some(Function(proto.value, e.value));
    }

    method ParseExtern() returns (p: Option<Prototype>)
      requires Valid()
      modifies this
      ensures Valid() && (p, pos) == ExternDecl(toks, old(pos))
    {
      var _ := GetNextToken();
      p := ParsePrototype();
    }

    method ParseTopLevelExpr() returns (f: Option<Function>)
      requires Valid()
      modifies this
      ensures Valid() && (f, pos) == TopLevelExpr(toks, old(pos))
    {
      var e := ParseExpression();
      if e.None? {
        return None;
      }
      f := Some(Function(Prototype("", []), e.value));
    }
  }
}
