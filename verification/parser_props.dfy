/** What ParseExpression/ParseBinOpRHS promise about the trees they build:
    operator chains group by precedence and associate to the left, the
    result is the only tree that does so, and a fully parenthesised
    rendering of any tree parses back to that tree. */
module ParserProperties {
  import opened Wrappers
  import opened Lexer
  import opened Ast
  import opened Parser

  /** A number or identifier token: a primary that is read as a leaf. */
  predicate IsAtom(t: Token) {
    t.Number? || t.Identifier?
  }

  /** The leaf a primary token is read as. */
  function Leaf(t: Token): Expr
    requires IsAtom(t)
  {
    if t.Number? then Num(t.text) else Variable(t.name)
  }

  /** An operator chain a0 op1 a1 ... opn an: atoms at even indices, table
      operators at odd ones. */
  predicate Chain(toks: seq<Token>) {
    && |toks| % 2 == 1
    && (forall k :: 0 <= k < |toks| && k % 2 == 0 ==> IsAtom(toks[k]))
    && (forall k :: 0 <= k < |toks| && k % 2 == 1 ==> toks[k].Char? && toks[k].c in BinopPrecedence)
  }

  /** A tree of leaves and binary nodes only. */
  predicate Arith(e: Expr) {
    match e
    case Num(_) => true
    case Variable(_) => true
    case Call(_, _) => false
    case Binary(_, l, r) => Arith(l) && Arith(r)
  }

  /** The tokens a tree of leaves and binary nodes is read from, in order. */
  function Yield(e: Expr): (y: seq<Token>)
    requires Arith(e)
    ensures |y| % 2 == 1 && (e.Binary? <==> |y| > 1)
  {
    match e
    case Num(t) => [Number(t)]
    case Variable(n) => [Identifier(n)]
    case Binary(op, l, r) => Yield(l) + [Char(op)] + Yield(r)
  }

  /** e is a leaf, or its operator has precedence at least p. */
  predicate Binds(e: Expr, p: int) {
    !e.Binary? || Precedence(Char(e.op)) >= p
  }

  /** Every binary node's left operand binds at least as tightly as the node
      (equal precedence groups to the left) and its right operand strictly
      more tightly. */
  predicate PrecOrdered(e: Expr) {
    match e
    case Num(_) => true
    case Variable(_) => true
    case Call(_, _) => true
    case Binary(op, l, r) =>
      PrecOrdered(l) && PrecOrdered(r) &&
      Binds(l, Precedence(Char(op))) && Binds(r, Precedence(Char(op)) + 1)
  }

  // ---------------------------------------------------------------------
  // Precedence climbing on operator chains

  lemma ChainSlices(toks: seq<Token>, i: nat, j: nat)
    requires Chain(toks) && i <= j <= |toks| && i % 2 == 0 && j % 2 == 1
    ensures Chain(toks[i..j])
  {
    var s := toks[i..j];
    forall k | 0 <= k < |s| && k % 2 == 0 ensures IsAtom(s[k]) {
      assert s[k] == toks[i + k];
    }
    forall k | 0 <= k < |s| && k % 2 == 1 ensures s[k].Char? && s[k].c in BinopPrecedence {
      assert s[k] == toks[i + k];
    }
  }

  /** An atom of a chain is read by ParsePrimary as its leaf. */
  lemma AtomAt(toks: seq<Token>, k: nat)
    requires Chain(toks) && k < |toks| && k % 2 == 0
    ensures IsAtom(toks[k]) && Primary(toks, k) == (Some(Leaf(toks[k])), k + 1)
    ensures Yield(Leaf(toks[k])) == toks[k..k + 1]
  {
    assert IsAtom(toks[k]);
    if k + 1 < |toks| {
      assert toks[k + 1].Char? && toks[k + 1].c in BinopPrecedence;
    }
  }

  lemma LeafYield(t: Token)
    requires IsAtom(t)
    ensures Arith(Leaf(t)) && Yield(Leaf(t)) == [t] && PrecOrdered(Leaf(t))
  {
  }

  /** A cursor at an odd index of a chain sits on a table operator that is
      followed by an atom. */
  lemma OperatorAt(toks: seq<Token>, k: nat)
    requires Chain(toks) && k < |toks| && k % 2 == 1
    ensures toks[k] == Char(toks[k].c) && Precedence(toks[k]) > 0 && k + 1 < |toks|
  {
    assert toks[k].Char? && toks[k].c in BinopPrecedence;
  }

  lemma JoinYield(toks: seq<Token>, j: nat, pos: nat, q: nat, op: char, lhs: Expr, rhs: Expr)
    requires j <= pos < q <= |toks| && toks[pos] == Char(op)
    requires Arith(lhs) && Yield(lhs) == toks[j..pos]
    requires Arith(rhs) && Yield(rhs) == toks[pos + 1..q]
    ensures Arith(Binary(op, lhs, rhs)) && Yield(Binary(op, lhs, rhs)) == toks[j..q]
  {
    assert toks[j..q] == toks[j..pos] + [toks[pos]] + toks[pos + 1..q];
  }

  /** Folding the operator at pos and a right operand read from
      toks[pos+1..q] into the left operand keeps the climbing invariant. */
  lemma Reduce(toks: seq<Token>, exprPrec: nat, lhs: Expr, j: nat, pos: nat, rhs: Expr, q: nat)
    requires Chain(toks) && j <= pos < q <= |toks| && pos % 2 == 1
    requires Arith(lhs) && Yield(lhs) == toks[j..pos] && PrecOrdered(lhs)
    requires Binds(lhs, Precedence(TokenAt(toks, pos))) && Precedence(TokenAt(toks, pos)) >= exprPrec
    requires Arith(rhs) && Yield(rhs) == toks[pos + 1..q] && PrecOrdered(rhs)
    requires Binds(rhs, Precedence(TokenAt(toks, pos)) + 1) && Precedence(TokenAt(toks, q)) <= Precedence(TokenAt(toks, pos))
    ensures var node := Binary(toks[pos].c, lhs, rhs);
      && Arith(node) && Yield(node) == toks[j..q] && PrecOrdered(node)
      && Binds(node, Precedence(TokenAt(toks, q))) && Binds(node, exprPrec)
  {
    OperatorAt(toks, pos);
    JoinYield(toks, j, pos, q, toks[pos].c, lhs, rhs);
  }

  /** ParseBinOpRHS at an operator whose right operand is followed by a
      tighter operator: the inner call at TokPrec + 1 builds the right
      operand, and the loop goes on with the joined node. */
  lemma UnfoldTight(toks: seq<Token>, exprPrec: nat, lhs: Expr, pos: nat, a: Expr)
    requires pos + 1 < |toks| && toks[pos].Char? && Precedence(toks[pos]) >= exprPrec
    requires Primary(toks, pos + 1) == (Some(a), pos + 2)
    requires Precedence(TokenAt(toks, pos + 2)) > Precedence(toks[pos])
    requires BinOpRHS(toks, Precedence(toks[pos]) + 1, a, pos + 2).0.Some?
    ensures var (r2, p3) := BinOpRHS(toks, Precedence(toks[pos]) + 1, a, pos + 2);
      BinOpRHS(toks, exprPrec, lhs, pos) == BinOpRHS(toks, exprPrec, Binary(toks[pos].c, lhs, r2.value), p3)
  {
  }

  /** ParseBinOpRHS at an operator whose right operand is not followed by a
      tighter operator: the loop goes on with the joined node. */
  lemma UnfoldLoose(toks: seq<Token>, exprPrec: nat, lhs: Expr, pos: nat, a: Expr)
    requires pos + 1 < |toks| && toks[pos].Char? && Precedence(toks[pos]) >= exprPrec
    requires Primary(toks, pos + 1) == (Some(a), pos + 2)
    requires Precedence(TokenAt(toks, pos + 2)) <= Precedence(toks[pos])
    ensures BinOpRHS(toks, exprPrec, lhs, pos) == BinOpRHS(toks, exprPrec, Binary(toks[pos].c, lhs, a), pos + 2)
  {
  }

  /** One pass of ParseBinOpRHS over a chain, started at an operator (or at
      the end) with a left operand read from toks[j..pos]: it succeeds,
      stops at the first operator below exprPrec, and the tree it returns
      is read from toks[j..q] and respects precedence. */
  lemma {:induction false} ClimbChain(toks: seq<Token>, exprPrec: nat, lhs: Expr, j: nat, pos: nat)
    requires Chain(toks) && pos <= |toks| && pos % 2 == 1 && j <= pos
    requires Arith(lhs) && Yield(lhs) == toks[j..pos] && PrecOrdered(lhs)
    requires Binds(lhs, Precedence(TokenAt(toks, pos)))
    ensures var (r, q) := BinOpRHS(toks, exprPrec, lhs, pos);
      && r.Some? && pos <= q <= |toks| && q % 2 == 1
      && Arith(r.value) && Yield(r.value) == toks[j..q] && PrecOrdered(r.value)
      && Precedence(TokenAt(toks, q)) < exprPrec
      && (r.value == lhs || Binds(r.value, exprPrec))
    decreases |toks| - pos, 1
  {
    var tokPrec := Precedence(TokenAt(toks, pos));
    if tokPrec >= exprPrec {
      OperatorAt(toks, pos);
      AtomAt(toks, pos + 1);
      if Precedence(TokenAt(toks, pos + 2)) > tokPrec {
        ClimbTight(toks, exprPrec, lhs, j, pos);
      } else {
        ClimbLoose(toks, exprPrec, lhs, j, pos);
      }
    }
  }

  /** ClimbChain at an operator whose right operand is followed by a
      tighter operator. */
  lemma {:induction false} ClimbTight(toks: seq<Token>, exprPrec: nat, lhs: Expr, j: nat, pos: nat)
    requires Chain(toks) && pos + 2 < |toks| && pos % 2 == 1 && j <= pos
    requires Arith(lhs) && Yield(lhs) == toks[j..pos] && PrecOrdered(lhs)
    requires Binds(lhs, Precedence(toks[pos])) && Precedence(toks[pos]) >= exprPrec
    requires Precedence(toks[pos + 2]) > Precedence(toks[pos])
    ensures var (r, q) := BinOpRHS(toks, exprPrec, lhs, pos);
      && r.Some? && pos <= q <= |toks| && q % 2 == 1
      && Arith(r.value) && Yield(r.value) == toks[j..q] && PrecOrdered(r.value)
      && Precedence(TokenAt(toks, q)) < exprPrec
      && (r.value == lhs || Binds(r.value, exprPrec))
    decreases |toks| - pos, 0
  {
    var tokPrec := Precedence(toks[pos]);
    OperatorAt(toks, pos);
    AtomAt(toks, pos + 1);
    var a := Leaf(toks[pos + 1]);
    LeafYield(toks[pos + 1]);
    ClimbChain(toks, tokPrec + 1, a, pos + 1, pos + 2);
    var (r2, p3) := BinOpRHS(toks, tokPrec + 1, a, pos + 2);
    var node := Binary(toks[pos].c, lhs, r2.value);
    Reduce(toks, exprPrec, lhs, j, pos, r2.value, p3);
    UnfoldTight(toks, exprPrec, lhs, pos, a);
    ClimbChain(toks, exprPrec, node, j, p3);
  }

  /** ClimbChain at an operator whose right operand is not followed by a
      tighter operator. */
  lemma {:induction false} ClimbLoose(toks: seq<Token>, exprPrec: nat, lhs: Expr, j: nat, pos: nat)
    requires Chain(toks) && pos + 1 < |toks| && pos % 2 == 1 && j <= pos
    requires Arith(lhs) && Yield(lhs) == toks[j..pos] && PrecOrdered(lhs)
    requires Binds(lhs, Precedence(toks[pos])) && Precedence(toks[pos]) >= exprPrec
    requires Precedence(TokenAt(toks, pos + 2)) <= Precedence(toks[pos])
    ensures var (r, q) := BinOpRHS(toks, exprPrec, lhs, pos);
      && r.Some? && pos <= q <= |toks| && q % 2 == 1
      && Arith(r.value) && Yield(r.value) == toks[j..q] && PrecOrdered(r.value)
      && Precedence(TokenAt(toks, q)) < exprPrec
      && (r.value == lhs || Binds(r.value, exprPrec))
    decreases |toks| - pos, 0
  {
    OperatorAt(toks, pos);
    AtomAt(toks, pos + 1);
    var a := Leaf(toks[pos + 1]);
    LeafYield(toks[pos + 1]);
    var node := Binary(toks[pos].c, lhs, a);
    Reduce(toks, exprPrec, lhs, j, pos, a, pos + 2);
    UnfoldLoose(toks, exprPrec, lhs, pos, a);
    ClimbChain(toks, exprPrec, node, j, pos + 2);
  }

  /** Every operator in a precedence-respecting tree that binds at p has
      precedence at least p. */
  lemma {:induction false} OperatorsBindAtLeast(e: Expr, p: int)
    requires Arith(e) && PrecOrdered(e) && Binds(e, p)
    ensures forall k :: 0 <= k < |Yield(e)| && Yield(e)[k].Char? ==> Precedence(Yield(e)[k]) >= p
  {
    if e.Binary? {
      var prec := Precedence(Char(e.op));
      OperatorsBindAtLeast(e.lhs, prec);
      OperatorsBindAtLeast(e.rhs, prec + 1);
      var yl, yr := Yield(e.lhs), Yield(e.rhs);
      forall k | 0 <= k < |Yield(e)| && Yield(e)[k].Char? ensures Precedence(Yield(e)[k]) >= p {
        if k < |yl| {
          assert Yield(e)[k] == yl[k];
        } else if k > |yl| {
          assert Yield(e)[k] == yr[k - |yl| - 1];
        }
      }
    }
  }

  /** In a precedence-respecting binary tree, every operator left of the
      root binds at least as tightly as the root and every operator right of
      it binds strictly more tightly: the root is the last of the loosest
      operators. */
  lemma RootIsLastLoosest(e: Expr)
    requires Arith(e) && PrecOrdered(e) && e.Binary?
    ensures var i, p := |Yield(e.lhs)|, Precedence(Char(e.op));
      && (forall k :: 0 <= k < i && Yield(e)[k].Char? ==> Precedence(Yield(e)[k]) >= p)
      && (forall k :: i < k < |Yield(e)| && Yield(e)[k].Char? ==> Precedence(Yield(e)[k]) > p)
  {
    var yl, yr := Yield(e.lhs), Yield(e.rhs);
    var p := Precedence(Char(e.op));
    OperatorsBindAtLeast(e.lhs, p);
    OperatorsBindAtLeast(e.rhs, p + 1);
    ConcatIndex(yl, Char(e.op), yr);
  }

  lemma ConcatIndex<T>(a: seq<T>, x: T, b: seq<T>)
    ensures forall k :: 0 <= k < |a| ==> (a + [x] + b)[k] == a[k]
    ensures forall k :: |a| < k < |a| + 1 + |b| ==> (a + [x] + b)[k] == b[k - |a| - 1]
  {
  }

  /** Cutting a chain at an operator leaves two chains. */
  lemma ChainParts(a: seq<Token>, x: Token, b: seq<Token>)
    requires Chain(a + [x] + b) && |a| % 2 == 1
    ensures Chain(a) && Chain(b)
  {
    var w := a + [x] + b;
    forall k | 0 <= k < |a| ensures a[k] == w[k] { }
    forall k | 0 <= k < |b| ensures b[k] == w[|a| + 1 + k] && (|a| + 1 + k) % 2 == k % 2 { }
  }

  lemma SplitEqual(a1: seq<Token>, x1: Token, b1: seq<Token>, a2: seq<Token>, x2: Token, b2: seq<Token>)
    requires a1 + [x1] + b1 == a2 + [x2] + b2 && |a1| == |a2|
    ensures a1 == a2 && x1 == x2 && b1 == b2
  {
    var w := a1 + [x1] + b1;
    assert a1 == w[..|a1|] && a2 == w[..|a1|];
    assert x1 == w[|a1|] && x2 == w[|a1|];
    assert b1 == w[|a1| + 1..] && b2 == w[|a1| + 1..];
  }

  /** A chain has at most one precedence-respecting tree. */
  lemma {:induction false} PrecOrderedTreeUnique(e1: Expr, e2: Expr)
    requires Arith(e1) && Arith(e2) && PrecOrdered(e1) && PrecOrdered(e2)
    requires Yield(e1) == Yield(e2) && Chain(Yield(e1))
    ensures e1 == e2
  {
    var y := Yield(e1);
    if e1.Binary? && e2.Binary? {
      var i1, i2 := |Yield(e1.lhs)|, |Yield(e2.lhs)|;
      assert y[i1] == Char(e1.op) && y[i2] == Char(e2.op);
      RootIsLastLoosest(e1);
      RootIsLastLoosest(e2);
      assert i1 == i2;
      SplitEqual(Yield(e1.lhs), Char(e1.op), Yield(e1.rhs), Yield(e2.lhs), Char(e2.op), Yield(e2.rhs));
      ChainParts(Yield(e1.lhs), Char(e1.op), Yield(e1.rhs));
      PrecOrderedTreeUnique(e1.lhs, e2.lhs);
      PrecOrderedTreeUnique(e1.rhs, e2.rhs);
    } else {
      assert |y| == 1;
    }
  }

  /** ParseExpression reads a whole operator chain, and what it builds is
      the one tree of leaves and binary nodes that has the chain as its
      yield and respects precedence and left associativity. */
  lemma ChainParse(toks: seq<Token>)
    requires Chain(toks)
    ensures var (r, q) := Expression(toks, 0);
      && r.Some? && q == |toks|
      && Arith(r.value) && Yield(r.value) == toks && PrecOrdered(r.value)
      && forall t :: Arith(t) && PrecOrdered(t) && Yield(t) == toks ==> t == r.value
  {
    AtomAt(toks, 0);
    var a := toks[0];
    ClimbChain(toks, 0, Leaf(a), 0, 1);
    var (r, q) := Expression(toks, 0);
    if q < |toks| {
      OperatorAt(toks, q);
    }
    assert toks[0..q] == toks;
    forall t | Arith(t) && PrecOrdered(t) && Yield(t) == toks ensures t == r.value {
      PrecOrderedTreeUnique(t, r.value);
    }
  }

  /** Three operands: a op1 b op2 c groups to the right exactly when op2
      binds strictly tighter than op1; equal precedence groups to the left
      (a-b-c is (a-b)-c, a+b*c is a+(b*c)). */
  lemma ThreeOperandGrouping(a: Token, op1: char, b: Token, op2: char, c: Token)
    requires IsAtom(a) && IsAtom(b) && IsAtom(c)
    requires op1 in BinopPrecedence && op2 in BinopPrecedence
    ensures Expression([a, Char(op1), b, Char(op2), c], 0) ==
      (Some(if Precedence(Char(op1)) < Precedence(Char(op2))
            then Binary(op1, Leaf(a), Binary(op2, Leaf(b), Leaf(c)))
            else Binary(op2, Binary(op1, Leaf(a), Leaf(b)), Leaf(c))), 5)
  {
    var toks := [a, Char(op1), b, Char(op2), c];
    assert Chain(toks);
    ChainParse(toks);
    LeafYield(a);
    LeafYield(b);
    LeafYield(c);
    var t := if Precedence(Char(op1)) < Precedence(Char(op2))
             then Binary(op1, Leaf(a), Binary(op2, Leaf(b), Leaf(c)))
             else Binary(op2, Binary(op1, Leaf(a), Leaf(b)), Leaf(c));
    assert Yield(t) == [a] + [Char(op1)] + [b] + [Char(op2)] + [c] == toks;
    assert Arith(t) && PrecOrdered(t);
  }

  /** ParseBinOpRHS in general: it returns LHS untouched when the current
      operator binds below ExprPrec; when it succeeds it has stopped at a
      token below ExprPrec, and its result is LHS or a binary node whose
      operator binds at least at ExprPrec. */
  lemma {:induction false} ClimbStopsBelow(toks: seq<Token>, exprPrec: nat, lhs: Expr, pos: nat)
    requires pos <= |toks|
    ensures Precedence(TokenAt(toks, pos)) < exprPrec ==> BinOpRHS(toks, exprPrec, lhs, pos) == (Some(lhs), pos)
    ensures var (r, q) := BinOpRHS(toks, exprPrec, lhs, pos);
      r.Some? ==> Precedence(TokenAt(toks, q)) < exprPrec && (r.value == lhs || (r.value.Binary? && Binds(r.value, exprPrec)))
    decreases |toks| - pos
  {
    var tokPrec := Precedence(TokenAt(toks, pos));
    if tokPrec >= exprPrec {
      var binOp := TokenAt(toks, pos).c;
      var (rhs, p2) := Primary(toks, Adv(toks, pos));
      if rhs.Some? {
        if Precedence(TokenAt(toks, p2)) > tokPrec {
          var (rhs2, p3) := BinOpRHS(toks, tokPrec + 1, rhs.value, p2);
          if rhs2.Some? {
            ClimbStopsBelow(toks, exprPrec, Binary(binOp, lhs, rhs2.value), p3);
          }
        } else {
          ClimbStopsBelow(toks, exprPrec, Binary(binOp, lhs, rhs.value), p2);
        }
      }
    }
  }

  // ---------------------------------------------------------------------
  // Round trip through a fully parenthesised rendering

  /** Renders a tree as tokens, every binary node in parentheses and call
      arguments separated by ','. */
  function Unparse(e: Expr): (u: seq<Token>)
    ensures |u| > 0
  {
    match e
    case Num(t) => [Number(t)]
    case Variable(n) => [Identifier(n)]
    case Call(f, args) => [Identifier(f), Char('(')] + UnparseArgs(args) + [Char(')')]
    case Binary(op, l, r) => [Char('(')] + Unparse(l) + [Char(op)] + Unparse(r) + [Char(')')]
  }

  function UnparseArgs(args: seq<Expr>): seq<Token> {
    if args == [] then []
    else if |args| == 1 then Unparse(args[0])
    else Unparse(args[0]) + [Char(',')] + UnparseArgs(args[1..])
  }

  /** A rendering never starts with ')'. */
  lemma UnparseStart(e: Expr)
    ensures Unparse(e)[0] != Char(')')
  {
  }

  /** toks holds w at index pos. */
  predicate HoldsAt(toks: seq<Token>, pos: nat, w: seq<Token>) {
    pos + |w| <= |toks| && forall k :: 0 <= k < |w| ==> toks[pos + k] == w[k]
  }

  /** x m y at pos: x at pos, m after it, y after m. */
  lemma HoldsAtWrapped(toks: seq<Token>, pos: nat, x: Token, m: seq<Token>, y: Token)
    requires HoldsAt(toks, pos, [x] + m + [y])
    ensures TokenAt(toks, pos) == x && HoldsAt(toks, pos + 1, m) && TokenAt(toks, pos + 1 + |m|) == y
  {
    var w := [x] + m + [y];
    assert toks[pos + 0] == w[0];
    forall k | 0 <= k < |m| ensures toks[pos + 1 + k] == m[k] {
      assert toks[pos + (1 + k)] == w[1 + k];
    }
    assert toks[pos + (1 + |m|)] == w[1 + |m|];
  }

  /** a x b at pos: a at pos, x after it, b after x. */
  lemma HoldsAtJoined(toks: seq<Token>, pos: nat, a: seq<Token>, x: Token, b: seq<Token>)
    requires HoldsAt(toks, pos, a + [x] + b)
    ensures HoldsAt(toks, pos, a) && TokenAt(toks, pos + |a|) == x && HoldsAt(toks, pos + |a| + 1, b)
  {
    var w := a + [x] + b;
    forall k | 0 <= k < |a| ensures toks[pos + k] == a[k] {
      assert toks[pos + k] == w[k];
    }
    assert toks[pos + |a|] == w[|a|];
    forall k | 0 <= k < |b| ensures toks[pos + |a| + 1 + k] == b[k] {
      assert toks[pos + (|a| + 1 + k)] == w[|a| + 1 + k];
    }
  }

  lemma HoldsAtToken(toks: seq<Token>, pos: nat, t: Token)
    requires HoldsAt(toks, pos, [t])
    ensures TokenAt(toks, pos) == t
  {
    assert toks[pos + 0] == [t][0];
  }

  /** ParseExpression on primary op primary followed by a non-operator. */
  lemma SingleOperator(toks: seq<Token>, pos: nat, l: Expr, op: char, r: Expr, p1: nat, p2: nat)
    requires pos <= p1 < p2 <= |toks| && op in BinopPrecedence
    requires Primary(toks, pos) == (Some(l), p1) && TokenAt(toks, p1) == Char(op)
    requires Primary(toks, p1 + 1) == (Some(r), p2) && Precedence(TokenAt(toks, p2)) < 0
    ensures Expression(toks, pos) == (Some(Binary(op, l, r)), p2)
  {
    assert BinOpRHS(toks, 0, Binary(op, l, r), p2) == (Some(Binary(op, l, r)), p2);
    assert BinOpRHS(toks, 0, l, p1) == BinOpRHS(toks, 0, Binary(op, l, r), p2);
  }

  /** ParsePrimary reads back a rendered tree, provided the token after it
      does not open an argument list. */
  lemma {:induction false} ReparsePrimary(e: Expr, toks: seq<Token>, pos: nat)
    requires OpsWithin(e, BinopPrecedence.Keys)
    requires HoldsAt(toks, pos, Unparse(e))
    requires TokenAt(toks, pos + |Unparse(e)|) != Char('(')
    ensures Primary(toks, pos) == (Some(e), pos + |Unparse(e)|)
    decreases e, 1
  {
    match e
    case Num(t) =>
      HoldsAtToken(toks, pos, Number(t));
    case Variable(n) =>
      HoldsAtToken(toks, pos, Identifier(n));
    case Call(f, args) =>
      ReparseCall(f, args, toks, pos);
    case Binary(op, l, r) =>
      ReparseBinary(op, l, r, toks, pos);
  }

  /** Where the pieces of a rendered call sit. */
  lemma CallLayout(f: string, args: seq<Expr>, toks: seq<Token>, pos: nat)
    requires HoldsAt(toks, pos, Unparse(Call(f, args)))
    ensures |Unparse(Call(f, args))| == |UnparseArgs(args)| + 3
    ensures TokenAt(toks, pos) == Identifier(f) && TokenAt(toks, pos + 1) == Char('(')
    ensures HoldsAt(toks, pos + 2, UnparseArgs(args))
    ensures TokenAt(toks, pos + 2 + |UnparseArgs(args)|) == Char(')')
  {
    var u := UnparseArgs(args);
    assert Unparse(Call(f, args)) == [Identifier(f)] + ([Char('(')] + u) + [Char(')')];
    HoldsAtWrapped(toks, pos, Identifier(f), [Char('(')] + u, Char(')'));
    assert [Char('(')] + u == [] + [Char('(')] + u;
    HoldsAtJoined(toks, pos + 1, [], Char('('), u);
  }

  /** Where the pieces of a rendered binary node sit. */
  lemma BinaryLayout(op: char, l: Expr, r: Expr, toks: seq<Token>, pos: nat)
    requires HoldsAt(toks, pos, Unparse(Binary(op, l, r)))
    ensures |Unparse(Binary(op, l, r))| == |Unparse(l)| + |Unparse(r)| + 3
    ensures TokenAt(toks, pos) == Char('(')
    ensures HoldsAt(toks, pos + 1, Unparse(l))
    ensures TokenAt(toks, pos + 1 + |Unparse(l)|) == Char(op)
    ensures HoldsAt(toks, pos + 2 + |Unparse(l)|, Unparse(r))
    ensures TokenAt(toks, pos + 2 + |Unparse(l)| + |Unparse(r)|) == Char(')')
  {
    var ul, ur := Unparse(l), Unparse(r);
    assert Unparse(Binary(op, l, r)) == [Char('(')] + (ul + [Char(op)] + ur) + [Char(')')];
    HoldsAtWrapped(toks, pos, Char('('), ul + [Char(op)] + ur, Char(')'));
    HoldsAtJoined(toks, pos + 1, ul, Char(op), ur);
  }

  /** Where the pieces of rendered arguments sit. */
  lemma ArgsLayout(args: seq<Expr>, toks: seq<Token>, pos: nat)
    requires |args| > 1 && HoldsAt(toks, pos, UnparseArgs(args))
    ensures |UnparseArgs(args)| == |Unparse(args[0])| + 1 + |UnparseArgs(args[1..])|
    ensures HoldsAt(toks, pos, Unparse(args[0]))
    ensures TokenAt(toks, pos + |Unparse(args[0])|) == Char(',')
    ensures HoldsAt(toks, pos + |Unparse(args[0])| + 1, UnparseArgs(args[1..]))
  {
    assert UnparseArgs(args) == Unparse(args[0]) + [Char(',')] + UnparseArgs(args[1..]);
    HoldsAtJoined(toks, pos, Unparse(args[0]), Char(','), UnparseArgs(args[1..]));
  }

  lemma {:induction false} ReparseCall(f: string, args: seq<Expr>, toks: seq<Token>, pos: nat)
    requires OpsWithin(Call(f, args), BinopPrecedence.Keys)
    requires HoldsAt(toks, pos, Unparse(Call(f, args)))
    ensures TokenAt(toks, pos) == Identifier(f)
    ensures IdentifierExpr(toks, pos) == (Some(Call(f, args)), pos + |Unparse(Call(f, args))|)
    decreases Call(f, args), 0
  {
    CallLayout(f, args, toks, pos);
    if args != [] {
      ReparseArgs(args, toks, pos + 2);
    }
  }

  lemma {:induction false} ReparseBinary(op: char, l: Expr, r: Expr, toks: seq<Token>, pos: nat)
    requires OpsWithin(Binary(op, l, r), BinopPrecedence.Keys)
    requires HoldsAt(toks, pos, Unparse(Binary(op, l, r)))
    ensures TokenAt(toks, pos) == Char('(')
    ensures ParenExpr(toks, pos) == (Some(Binary(op, l, r)), pos + |Unparse(Binary(op, l, r))|)
    decreases Binary(op, l, r), 0
  {
    BinaryLayout(op, l, r, toks, pos);
    var p1 := pos + 1 + |Unparse(l)|;
    var p2 := p1 + 1 + |Unparse(r)|;
    ReparsePrimary(l, toks, pos + 1);
    ReparsePrimary(r, toks, p1 + 1);
    SingleOperator(toks, pos + 1, l, op, r, p1, p2);
  }

  /** ParseExpression reads back a rendered tree, provided the token after
      it is neither a binary operator nor '('. */
  lemma {:induction false} ReparseExpression(e: Expr, toks: seq<Token>, pos: nat)
    requires OpsWithin(e, BinopPrecedence.Keys)
    requires HoldsAt(toks, pos, Unparse(e))
    requires TokenAt(toks, pos + |Unparse(e)|) != Char('(')
    requires Precedence(TokenAt(toks, pos + |Unparse(e)|)) < 0
    ensures Expression(toks, pos) == (Some(e), pos + |Unparse(e)|)
    decreases e, 2
  {
    ReparsePrimary(e, toks, pos);
  }

  /** One more argument: an expression, a ',' and the remaining arguments. */
  lemma CallArgsMore(toks: seq<Token>, pos: nat, a: Expr, p1: nat, rest: seq<Expr>, p2: nat)
    requires pos <= |toks| && Expression(toks, pos) == (Some(a), p1)
    requires p1 < |toks| && toks[p1] == Char(',')
    requires CallArgs(toks, p1 + 1) == (Some(rest), p2)
    ensures CallArgs(toks, pos) == (Some([a] + rest), p2)
  {
  }

  /** The argument loop reads back rendered arguments up to the ')'. */
  lemma {:induction false} ReparseArgs(args: seq<Expr>, toks: seq<Token>, pos: nat)
    requires |args| > 0
    requires forall i :: 0 <= i < |args| ==> OpsWithin(args[i], BinopPrecedence.Keys)
    requires HoldsAt(toks, pos, UnparseArgs(args))
    requires TokenAt(toks, pos + |UnparseArgs(args)|) == Char(')')
    ensures CallArgs(toks, pos) == (Some(args), pos + |UnparseArgs(args)|)
    ensures TokenAt(toks, pos) != Char(')')
    decreases args, 1
  {
    if |args| == 1 {
      ReparseLastArg(args, toks, pos);
    } else {
      ReparseNextArg(args, toks, pos);
    }
  }

  lemma {:induction false} ReparseLastArg(args: seq<Expr>, toks: seq<Token>, pos: nat)
    requires |args| == 1 && OpsWithin(args[0], BinopPrecedence.Keys)
    requires HoldsAt(toks, pos, UnparseArgs(args))
    requires TokenAt(toks, pos + |UnparseArgs(args)|) == Char(')')
    ensures CallArgs(toks, pos) == (Some(args), pos + |UnparseArgs(args)|)
    ensures TokenAt(toks, pos) != Char(')')
    decreases args, 0
  {
    var a := args[0];
    assert UnparseArgs(args) == Unparse(a);
    assert toks[pos + 0] == Unparse(a)[0];
    UnparseStart(a);
    ReparseExpression(a, toks, pos);
    assert [a] == args;
  }

  lemma {:induction false} ReparseNextArg(args: seq<Expr>, toks: seq<Token>, pos: nat)
    requires |args| > 1
    requires forall i :: 0 <= i < |args| ==> OpsWithin(args[i], BinopPrecedence.Keys)
    requires HoldsAt(toks, pos, UnparseArgs(args))
    requires TokenAt(toks, pos + |UnparseArgs(args)|) == Char(')')
    ensures CallArgs(toks, pos) == (Some(args), pos + |UnparseArgs(args)|)
    ensures TokenAt(toks, pos) != Char(')')
    decreases args, 0
  {
    var a, rest := args[0], args[1..];
    ArgsLayout(args, toks, pos);
    assert toks[pos + 0] == Unparse(a)[0];
    UnparseStart(a);
    ReparseExpression(a, toks, pos);
    var p1 := pos + |Unparse(a)|;
    var p2 := p1 + 1 + |UnparseArgs(rest)|;
    assert forall i :: 0 <= i < |rest| ==> rest[i] == args[i + 1];
    ReparseArgs(rest, toks, p1 + 1);
    assert toks[p1] == Char(',');
    CallArgsMore(toks, pos, a, p1, rest, p2);
    assert [a] + rest == args;
  }

  /** Round trip: rendering a tree whose operators are all in the table and
      parsing the tokens back gives the same tree, consuming exactly the
      rendering. */
  lemma RoundTrip(e: Expr)
    requires OpsWithin(e, BinopPrecedence.Keys)
    ensures Expression(Unparse(e), 0) == (Some(e), |Unparse(e)|)
  {
    var toks := Unparse(e);
    ReparseExpression(e, toks, 0);
  }

  // ---------------------------------------------------------------------
  // Prototypes

  /** The parameter loop of ParsePrototype takes exactly the run of
      identifiers in front of it. */
  lemma {:induction false} ProtoParamsReads(toks: seq<Token>, pos: nat, params: seq<string>)
    requires pos + |params| < |toks|
    requires forall k :: 0 <= k < |params| ==> toks[pos + k] == Identifier(params[k])
    requires !toks[pos + |params|].Identifier?
    ensures ProtoParams(toks, pos) == (params, pos + |params|)
    decreases params
  {
    if params != [] {
      assert toks[pos] == Identifier(params[0]);
      ProtoParamsReads(toks, pos + 1, params[1..]);
      assert [params[0]] + params[1..] == params;
    }
  }

  /** ParsePrototype on name '(' p1 ... pn t: the parameters are the run of
      identifiers, and the token t after them is consumed whether or not it
      is the ')' it should be. */
  lemma PrototypeReadsParams(toks: seq<Token>, pos: nat, name: string, params: seq<string>)
    requires pos + 3 + |params| <= |toks|
    requires toks[pos] == Identifier(name) && toks[pos + 1] == Char('(')
    requires forall k :: 0 <= k < |params| ==> toks[pos + 2 + k] == Identifier(params[k])
    requires !toks[pos + 2 + |params|].Identifier?
    ensures PrototypeDecl(toks, pos) == (Some(Prototype(name, params)), pos + 3 + |params|)
  {
    ProtoParamsReads(toks, pos + 2, params);
  }

  /** A prototype that does not start with an identifier followed by '('
      fails, without consuming more than the name. */
  lemma PrototypeNeedsNameAndParen(toks: seq<Token>, pos: nat)
    requires pos <= |toks|
    requires !TokenAt(toks, pos).Identifier? || TokenAt(toks, Adv(toks, pos)) != Char('(')
    ensures PrototypeDecl(toks, pos).0 == None
    ensures PrototypeDecl(toks, pos).1 == if TokenAt(toks, pos).Identifier? then pos + 1 else pos
  {
  }

  /** The canonical definition `def foo(a b) a+b`, as the lexer delivers it,
      parses into the function foo of two parameters whose body adds them,
      and the whole input is consumed. */
  lemma DefinitionExample()
    ensures var toks := [Def, Identifier("foo"), Char('('), Identifier("a"), Identifier("b"), Char(')'),
                         Identifier("a"), Char('+'), Identifier("b")];
      Definition(toks, 0) == (Some(Function(Prototype("foo", ["a", "b"]), Binary('+', Variable("a"), Variable("b")))), 9)
  {
    var toks := [Def, Identifier("foo"), Char('('), Identifier("a"), Identifier("b"), Char(')'),
                 Identifier("a"), Char('+'), Identifier("b")];
    PrototypeReadsParams(toks, 1, "foo", ["a", "b"]);
    assert Primary(toks, 6) == (Some(Variable("a")), 7);
    assert Primary(toks, 8) == (Some(Variable("b")), 9);
    assert Precedence(TokenAt(toks, 7)) == 20 && Precedence(TokenAt(toks, 9)) == -1;
    assert BinOpRHS(toks, 0, Binary('+', Variable("a"), Variable("b")), 9) == (Some(Binary('+', Variable("a"), Variable("b"))), 9);
    assert BinOpRHS(toks, 0, Variable("a"), 7) == (Some(Binary('+', Variable("a"), Variable("b"))), 9);
  }
}
