/** The trees that compiling a filter produces (internal/backend/filter.go). */
module FilterTree {
  import opened FilterLexer

  datatype ValueExpr =
    | NumberExpr(num: int, raw: string)
    | StringExpr(str: string)
    | FieldExpr(name: string)
    | BitwiseAnd(left: ValueExpr, right: ValueExpr)
    | GroupedValue(inner: ValueExpr)

  datatype BoolExpr =
    | TrueExpr
    | OrExpr(left: BoolExpr, right: BoolExpr)
    | AndExpr(left: BoolExpr, right: BoolExpr)
    | ComparisonExpr(op: TokenKind, l: ValueExpr, r: ValueExpr)

  predicate IsCompareToken(kind: TokenKind) {
    kind in {Eq, Ne, Lt, Gt, Le, Ge, Like}
  }
}
