/** The grammar of guard expressions (`crates/luaml/src/guard.rs`). */
module GuardGrammar {
  import opened Values
  import opened GuardLexer

  datatype CmpOp = OpEq | OpNeq | OpLt | OpGt | OpLte | OpGte

  datatype Expr =
    | EBool(truth: bool)
    | ENumber(number: Float)
    | EString(text: string)
    | ENil
    | EVar(word: string)
    | ENot(inner: Expr)
    | ECompare(left: Expr, op: CmpOp, right: Expr)
    | EAnd(left: Expr, right: Expr)
    | EOr(left: Expr, right: Expr)

  // Derivations of the precedence grammar: `or` below `and` below `not` below one comparison,
  // which does not chain, below the primaries.  Both connectives associate to the left.

  datatype OrTree = OneAnd(a: AndTree) | OrThen(front: OrTree, last: AndTree)

  datatype AndTree = OneNot(n: NotTree) | AndThen(front: AndTree, last: NotTree)

  datatype NotTree = Negated(n: NotTree) | Bare(p: Primary) | Compared(left: Primary, op: CmpOp, right: Primary)

  datatype Primary =
    | PBool(truth: bool)
    | PNumber(number: Float)
    | PString(text: string)
    | PNil
    | PVar(word: string)
    | Parens(inner: OrTree)

  function OpToken(op: CmpOp): Token {
    match op
    case OpEq => Eq
    case OpNeq => Neq
    case OpLt => Lt
    case OpGt => Gt
    case OpLte => Lte
    case OpGte => Gte
  }

  // The tokens that a derivation spells.

  function OrTokens(t: OrTree): seq<Token> {
    match t
    case OneAnd(a) => AndTokens(a)
    case OrThen(front, last) => OrTokens(front) + ([Or] + AndTokens(last))
  }

  function AndTokens(t: AndTree): seq<Token> {
    match t
    case OneNot(n) => NotTokens(n)
    case AndThen(front, last) => AndTokens(front) + ([And] + NotTokens(last))
  }

  function NotTokens(t: NotTree): seq<Token> {
    match t
    case Negated(n) => [Not] + NotTokens(n)
    case Bare(p) => PrimaryTokens(p)
    case Compared(left, op, right) => PrimaryTokens(left) + ([OpToken(op)] + PrimaryTokens(right))
  }

  function PrimaryTokens(p: Primary): seq<Token> {
    match p
    case PBool(b) => [BoolLit(b)]
    case PNumber(n) => [NumberLit(n)]
    case PString(s) => [StringLit(s)]
    case PNil => [Nil]
    case PVar(x) => [Ident(x)]
    case Parens(inner) => [LParen] + (OrTokens(inner) + [RParen])
  }

  // The expression that a derivation means; parentheses leave no trace.

  function OrExpr(t: OrTree): Expr {
    match t
    case OneAnd(a) => AndExpr(a)
    case OrThen(front, last) => EOr(OrExpr(front), AndExpr(last))
  }

  function AndExpr(t: AndTree): Expr {
    match t
    case OneNot(n) => NotExpr(n)
    case AndThen(front, last) => EAnd(AndExpr(front), NotExpr(last))
  }

  function NotExpr(t: NotTree): Expr {
    match t
    case Negated(n) => ENot(NotExpr(n))
    case Bare(p) => PrimaryExpr(p)
    case Compared(left, op, right) => ECompare(PrimaryExpr(left), op, PrimaryExpr(right))
  }

  function PrimaryExpr(p: Primary): Expr {
    match p
    case PBool(b) => EBool(b)
    case PNumber(n) => ENumber(n)
    case PString(s) => EString(s)
    case PNil => ENil
    case PVar(x) => EVar(x)
    case Parens(inner) => OrExpr(inner)
  }

  ghost predicate Derives(tokens: seq<Token>, e: Expr) {
    exists t: OrTree :: OrTokens(t) == tokens && OrExpr(t) == e
  }
}
