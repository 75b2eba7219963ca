/**
 * The fragment of Python's abstract syntax tree that the lowering pass looks at.
 * Node kinds the pass never inspects are collapsed into `OtherExpr` and `OtherStmt`;
 * operator tags are carried through unchanged and never interpreted.
 */
module Ast {
  import opened Wrappers

  datatype UnaryOperator = UAdd | USub | Not | Invert

  datatype BinaryOperator =
    | Add | Sub | Mult | MatMult | Div | Mod | Pow
    | LShift | RShift | BitOr | BitXor | BitAnd | FloorDiv

  datatype Literal = IntLit(i: int) | StrLit(s: string) | BoolLit(b: bool) | NoneLit

  /** The `ctx` marker of a tuple, copied verbatim into the rebuilt tuple. */
  datatype Context = Load | Store | Del

  datatype Expr =
    | Name(id: string)
    | Constant(value: Literal)
    | UnaryOp(uop: UnaryOperator, operand: Expr)
    | BinOp(left: Expr, bop: BinaryOperator, right: Expr)
    | Call(func: Expr, args: seq<Expr>, keywords: seq<Keyword>)
    | Tuple(elts: seq<Expr>, ctx: Context)
      /** Any other expression kind (comparison, attribute, subscript, ...), with its sub-expressions. */
    | OtherExpr(kind: string, children: seq<Expr>)

  /** A keyword argument `arg=value` of a call; the pass never looks inside it. */
  datatype Keyword = Keyword(arg: string, value: Expr)

  datatype Stmt =
    | Return(returned: Option<Expr>)
      /** `t1 = t2 = ... = value`, with plain-name targets. */
    | Assign(targets: seq<string>, value: Expr)
      /** Any other statement kind; its contents are opaque to the pass. */
    | OtherStmt(kind: string)

  /** The node kinds the pass decomposes into a temporary: `(ast.UnaryOp, ast.BinOp, ast.Call)`. */
  predicate IsOperation(e: Expr) {
    e.UnaryOp? || e.BinOp? || e.Call?
  }

  /** The value kinds a `return` is flattened for: operations and tuples. */
  predicate IsCompound(e: Expr) {
    IsOperation(e) || e.Tuple?
  }

  /** A leaf value: `(ast.Name, ast.Constant)`. */
  predicate IsAtomic(e: Expr) {
    e.Name? || e.Constant?
  }
}
