/** Expressions of view slots and event handlers (crates/glyim-gsx/src/expr.rs). */
module GsxExpr {
  import opened Wrappers

  datatype UnaryOp = Neg | Not | Deref | Ref | RefMut

  datatype BinaryOp = Lt | Gt | Le | Ge | Eq | Ne | Add | Sub | Mul | Div | Rem | And | Or

  datatype Literal = IntLit(i: int) | StrLit(s: string) | BoolLit(b: bool) | OtherLit(text: string)

  datatype Expr =
    | Var(name: string)
    | Lit(value: Literal)
    | Field(base: Expr, name: string)
    | Index(base: Expr, index: Expr)
    | Call(name: string, args: seq<Expr>)
    | Method(recv: Expr, name: string, args: seq<Expr>)
    | Closure(params: seq<string>, body: Expr)
    | Unary(unop: UnaryOp, inner: Expr)
    | Binary(binop: BinaryOp, left: Expr, right: Expr)
    | Assign(lhs: Expr, op: Option<BinaryOp>, rhs: Expr)
    | If(cond: Expr, thn: Expr, els: Option<Expr>)
    | Match(scrutinee: Expr, arms: seq<MatchArm>)
    | For(pat: string, iter: Expr, key: Option<Expr>, body: Expr)
    | Block(stmts: seq<Expr>, tail: Option<Expr>)
    | Let(pat: string, init: Expr)
    | Flow
    | Opaque(text: string)
    | Gsx

  datatype MatchArm = MatchArm(pat: string, guard: Option<Expr>, body: Expr)
}
