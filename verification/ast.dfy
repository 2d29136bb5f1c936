/** The AST classes of kaleidoscope.cpp as datatypes. The C++ classes only
    hold data (the visitor and codegen members are modelled elsewhere), so a
    closed sum type replaces the ExprAST hierarchy. */
module Ast {

  /** ExprAST: NumExprAST keeps the number's text (the C++ keeps the double
      strtod makes of it), VariableExprAST, CallExprAST, BinaryExprAST. */
  datatype Expr =
    | Num(text: string)
    | Variable(name: string)
    | Call(callee: string, args: seq<Expr>)
    | Binary(op: char, lhs: Expr, rhs: Expr)

  /** PrototypeAST: a function name and its parameter names. */
  datatype Prototype = Prototype(name: string, params: seq<string>)

  /** FunctionAST: a prototype and a single body expression. */
  datatype Function = Function(proto: Prototype, body: Expr)

  /** Every BinaryExprAST inside e carries an operator from ops. */
  predicate OpsWithin(e: Expr, ops: set<char>) {
    match e
    case Num(_) => true
    case Variable(_) => true
    case Call(_, args) => forall i :: 0 <= i < |args| ==> OpsWithin(args[i], ops)
    case Binary(op, l, r) => op in ops && OpsWithin(l, ops) && OpsWithin(r, ops)
  }
}
