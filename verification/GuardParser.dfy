/** Guard parser (`crates/luaml/src/guard.rs`). */
module GuardParser {
  import opened Wrappers
  import opened GuardLexer
  import opened GuardGrammar

  /** An expression and the position after it. */
  datatype Parsed = Parsed(e: Expr, pos: nat)

  type ParseResult = Result<Parsed, GuardError>

  function Comparison(token: Token): Option<CmpOp> {
    match token
    case Eq => Some(OpEq)
    case Neq => Some(OpNeq)
    case Lt => Some(OpLt)
    case Gt => Some(OpGt)
    case Lte => Some(OpLte)
    case Gte => Some(OpGte)
    case _ => None
  }

  /** `peek` at `pos` shows `token`. */
  predicate Next(tokens: seq<Token>, pos: nat, token: Token) {
    pos < |tokens| && tokens[pos] == token
  }

  // The parser as functions of the token list and a position in it.

  function ParseOr(tokens: seq<Token>, pos: nat): (r: ParseResult)
    requires pos <= |tokens|
    ensures r.Ok? ==> pos < r.value.pos <= |tokens|
    decreases |tokens| - pos, 6
  {
    match ParseAnd(tokens, pos)
    case Err(error) => Err(error)
    case Ok(left) => OrLoop(left.e, tokens, left.pos)
  }

  function OrLoop(left: Expr, tokens: seq<Token>, pos: nat): (r: ParseResult)
    requires pos <= |tokens|
    ensures r.Ok? ==> pos <= r.value.pos <= |tokens|
    decreases |tokens| - pos, 5
  {
    if !Next(tokens, pos, Or) then Ok(Parsed(left, pos))
    else
      match ParseAnd(tokens, pos + 1)
      case Err(error) => Err(error)
      case Ok(right) => OrLoop(EOr(left, right.e), tokens, right.pos)
  }

  function ParseAnd(tokens: seq<Token>, pos: nat): (r: ParseResult)
    requires pos <= |tokens|
    ensures r.Ok? ==> pos < r.value.pos <= |tokens|
    decreases |tokens| - pos, 4
  {
    match ParseNot(tokens, pos)
    case Err(error) => Err(error)
    case Ok(left) => AndLoop(left.e, tokens, left.pos)
  }

  function AndLoop(left: Expr, tokens: seq<Token>, pos: nat): (r: ParseResult)
    requires pos <= |tokens|
    ensures r.Ok? ==> pos <= r.value.pos <= |tokens|
    decreases |tokens| - pos, 3
  {
    if !Next(tokens, pos, And) then Ok(Parsed(left, pos))
    else
      match ParseNot(tokens, pos + 1)
      case Err(error) => Err(error)
      case Ok(right) => AndLoop(EAnd(left, right.e), tokens, right.pos)
  }

  function ParseNot(tokens: seq<Token>, pos: nat): (r: ParseResult)
    requires pos <= |tokens|
    ensures r.Ok? ==> pos < r.value.pos <= |tokens|
    decreases |tokens| - pos, 2
  {
    if Next(tokens, pos, Not) then
      match ParseNot(tokens, pos + 1)
      case Err(error) => Err(error)
      case Ok(inner) => Ok(Parsed(ENot(inner.e), inner.pos))
    else ParseCompare(tokens, pos)
  }

  function ParseCompare(tokens: seq<Token>, pos: nat): (r: ParseResult)
    requires pos <= |tokens|
    ensures r.Ok? ==> pos < r.value.pos <= |tokens|
    decreases |tokens| - pos, 1
  {
    match ParsePrimary(tokens, pos)
    case Err(error) => Err(error)
    case Ok(left) =>
      if EndsCompare(tokens, left.pos) then Ok(left)
      else
        match ParsePrimary(tokens, left.pos + 1)
        case Err(error) => Err(error)
        case Ok(right) => Ok(Parsed(ECompare(left.e, Comparison(tokens[left.pos]).value, right.e), right.pos))
  }

  function ParsePrimary(tokens: seq<Token>, pos: nat): (r: ParseResult)
    requires pos <= |tokens|
    ensures r.Ok? ==> pos < r.value.pos <= |tokens|
    decreases |tokens| - pos, 0
  {
    if pos == |tokens| then Err(UnexpectedEnd)
    else
      match tokens[pos]
      case BoolLit(b) => Ok(Parsed(EBool(b), pos + 1))
      case NumberLit(n) => Ok(Parsed(ENumber(n), pos + 1))
      case StringLit(s) => Ok(Parsed(EString(s), pos + 1))
      case Nil => Ok(Parsed(ENil, pos + 1))
      case Ident(x) => Ok(Parsed(EVar(x), pos + 1))
      case LParen =>
        (match ParseOr(tokens, pos + 1)
         case Err(error) => Err(error)
         case Ok(inner) =>
           if Next(tokens, inner.pos, RParen) then Ok(Parsed(inner.e, inner.pos + 1)) else Err(ExpectedClosing))
      case token => Err(UnexpectedToken(token))
  }

  /** No comparison operator comes next. */
  predicate EndsCompare(tokens: seq<Token>, pos: nat) {
    pos < |tokens| ==> Comparison(tokens[pos]).None?
  }

  /** The whole token list must be one expression (`evaluate_guard`). */
  function ParseAll(tokens: seq<Token>): Result<Expr, GuardError> {
    match ParseOr(tokens, 0)
    case Err(error) => Err(error)
    case Ok(p) => if p.pos == |tokens| then Ok(p.e) else Err(TrailingToken(tokens[p.pos]))
  }

  // The parser as it is written: a position that the methods advance.

  class Parser {
    const tokens: seq<Token>
    var pos: nat

    constructor (tokens: seq<Token>)
      ensures this.tokens == tokens && pos == 0
    {
      this.tokens := tokens;
      pos := 0;
    }

    /** What a method leaves behind: the expression returned and the position reached, or an error. */
    ghost predicate Follows(result: Result<Expr, GuardError>, spec: ParseResult)
      reads this
    {
      match spec
      case Ok(p) => result == Ok(p.e) && pos == p.pos
      case Err(error) => result == Err(error)
    }

    method OrExpression() returns (result: Result<Expr, GuardError>)
      requires pos <= |tokens|
      modifies this
      ensures Follows(result, ParseOr(tokens, old(pos)))
      decreases |tokens| - pos, 4
    {
      result := AndExpression();
      if result.Err? {
        return;
      }
      var left := result.value;
      ghost var start := pos;
      while Next(tokens, pos, Or)
        invariant old(pos) < pos <= |tokens|
        invariant OrLoop(left, tokens, pos) == ParseOr(tokens, old(pos))
        decreases |tokens| - pos
      {
        pos := pos + 1;
        var right := AndExpression();
        if right.Err? {
          return right;
        }
        left := EOr(left, right.value);
      }
      return Ok(left);
    }

    method AndExpression() returns (result: Result<Expr, GuardError>)
      requires pos <= |tokens|
      modifies this
      ensures Follows(result, ParseAnd(tokens, old(pos)))
      decreases |tokens| - pos, 3
    {
      result := NotExpression();
      if result.Err? {
        return;
      }
      var left := result.value;
      while Next(tokens, pos, And)
        invariant old(pos) < pos <= |tokens|
        invariant AndLoop(left, tokens, pos) == ParseAnd(tokens, old(pos))
        decreases |tokens| - pos
      {
        pos := pos + 1;
        var right := NotExpression();
        if right.Err? {
          return right;
        }
        left := EAnd(left, right.value);
      }
      return Ok(left);
    }

    method NotExpression() returns (result: Result<Expr, GuardError>)
      requires pos <= |tokens|
      modifies this
      ensures Follows(result, ParseNot(tokens, old(pos)))
      decreases |tokens| - pos, 2
    {
      if Next(tokens, pos, Not) {
        pos := pos + 1;
        result := NotExpression();
        if result.Ok? {
          result := Ok(ENot(result.value));
        }
      } else {
        result := CompareExpression();
      }
    }

    method CompareExpression() returns (result: Result<Expr, GuardError>)
      requires pos <= |tokens|
      modifies this
      ensures Follows(result, ParseCompare(tokens, old(pos)))
      decreases |tokens| - pos, 1
    {
      result := PrimaryExpression();
      if result.Ok? && pos < |tokens| && Comparison(tokens[pos]).Some? {
        var op := Comparison(tokens[pos]).value;
        pos := pos + 1;
        var right := PrimaryExpression();
        if right.Err? {
          return right;
        }
        return Ok(ECompare(result.value, op, right.value));
      }
    }

    method PrimaryExpression() returns (result: Result<Expr, GuardError>)
      requires pos <= |tokens|
      modifies this
      ensures Follows(result, ParsePrimary(tokens, old(pos)))
      decreases |tokens| - pos, 0
    {
      if pos == |tokens| {
        pos := pos + 1;
        return Err(UnexpectedEnd);
      }
      var token := tokens[pos];
      pos := pos + 1;
      match token {
        case BoolLit(b) => result := Ok(EBool(b));
        case NumberLit(n) => result := Ok(ENumber(n));
        case StringLit(s) => result := Ok(EString(s));
        case Nil => result := Ok(ENil);
        case Ident(x) => result := Ok(EVar(x));
        case LParen =>
          result := OrExpression();
          if result.Ok? {
            if !Next(tokens, pos, RParen) {
              result := Err(ExpectedClosing);
            }
            pos := pos + 1;
          }
        case _ => result := Err(UnexpectedToken(token));
      }
    }
  }

  /** The tokens from `start` to `end`. */
  ghost predicate At(tokens: seq<Token>, start: nat, part: seq<Token>) {
    start + |part| <= |tokens| && tokens[start..start + |part|] == part
  }

  lemma AtConcat(tokens: seq<Token>, start: nat, a: seq<Token>, b: seq<Token>)
    ensures At(tokens, start, a + b) <==> At(tokens, start, a) && At(tokens, start + |a|, b)
  {
    if start + |a| + |b| <= |tokens| {
      var middle := start + |a|;
      var end := middle + |b|;
      assert tokens[start..end] == tokens[start..middle] + tokens[middle..end];
      assert (a + b)[..|a|] == a && (a + b)[|a|..] == b;
      assert (tokens[start..middle] + tokens[middle..end])[..|a|] == tokens[start..middle];
      assert (tokens[start..middle] + tokens[middle..end])[|a|..] == tokens[middle..end];
    }
  }

  lemma AtOne(tokens: seq<Token>, start: nat, token: Token, rest: seq<Token>)
    ensures At(tokens, start, [token] + rest) <==> Next(tokens, start, token) && At(tokens, start + 1, rest)
  {
    AtConcat(tokens, start, [token], rest);
    if start < |tokens| { assert tokens[start..start + 1] == [tokens[start]]; }
  }

  // Where the parts of a derivation stand.

  lemma OrThenAt(tokens: seq<Token>, pos: nat, front: OrTree, last: AndTree)
    ensures var middle := pos + |OrTokens(front)|;
      At(tokens, pos, OrTokens(OrThen(front, last))) <==>
      At(tokens, pos, OrTokens(front)) && Next(tokens, middle, Or) && At(tokens, middle + 1, AndTokens(last))
  {
    hide At, Next, AndTokens;
    assert OrTokens(OrThen(front, last)) == OrTokens(front) + ([Or] + AndTokens(last));
    AtConcat(tokens, pos, OrTokens(front), [Or] + AndTokens(last));
    AtOne(tokens, pos + |OrTokens(front)|, Or, AndTokens(last));
  }

  lemma AndThenAt(tokens: seq<Token>, pos: nat, front: AndTree, last: NotTree)
    ensures var middle := pos + |AndTokens(front)|;
      At(tokens, pos, AndTokens(AndThen(front, last))) <==>
      At(tokens, pos, AndTokens(front)) && Next(tokens, middle, And) && At(tokens, middle + 1, NotTokens(last))
  {
    hide At, Next, NotTokens;
    assert AndTokens(AndThen(front, last)) == AndTokens(front) + ([And] + NotTokens(last));
    AtConcat(tokens, pos, AndTokens(front), [And] + NotTokens(last));
    AtOne(tokens, pos + |AndTokens(front)|, And, NotTokens(last));
  }

  lemma ComparedAt(tokens: seq<Token>, pos: nat, left: Primary, op: CmpOp, right: Primary)
    ensures var middle := pos + |PrimaryTokens(left)|;
      At(tokens, pos, NotTokens(Compared(left, op, right))) <==>
      At(tokens, pos, PrimaryTokens(left)) && Next(tokens, middle, OpToken(op))
      && At(tokens, middle + 1, PrimaryTokens(right))
  {
    hide At, Next, PrimaryTokens;
    assert NotTokens(Compared(left, op, right)) == PrimaryTokens(left) + ([OpToken(op)] + PrimaryTokens(right));
    AtConcat(tokens, pos, PrimaryTokens(left), [OpToken(op)] + PrimaryTokens(right));
    AtOne(tokens, pos + |PrimaryTokens(left)|, OpToken(op), PrimaryTokens(right));
  }

  lemma ParensAt(tokens: seq<Token>, pos: nat, inner: OrTree)
    ensures At(tokens, pos, PrimaryTokens(Parens(inner))) <==>
      Next(tokens, pos, LParen) && At(tokens, pos + 1, OrTokens(inner))
      && Next(tokens, pos + 1 + |OrTokens(inner)|, RParen)
  {
    hide OrTokens;
    assert PrimaryTokens(Parens(inner)) == [LParen] + (OrTokens(inner) + [RParen]);
    AtOne(tokens, pos, LParen, OrTokens(inner) + [RParen]);
    AtConcat(tokens, pos + 1, OrTokens(inner), [RParen]);
    AtOne(tokens, pos + 1 + |OrTokens(inner)|, RParen, []);
  }

  // Soundness: what the parser accepts, the grammar derives.

  ghost predicate OrSpells(tokens: seq<Token>, pos: nat, p: Parsed, t: OrTree) {
    At(tokens, pos, OrTokens(t)) && pos + |OrTokens(t)| == p.pos && OrExpr(t) == p.e
  }

  ghost predicate AndSpells(tokens: seq<Token>, pos: nat, p: Parsed, t: AndTree) {
    At(tokens, pos, AndTokens(t)) && pos + |AndTokens(t)| == p.pos && AndExpr(t) == p.e
  }

  ghost predicate NotSpells(tokens: seq<Token>, pos: nat, p: Parsed, t: NotTree) {
    At(tokens, pos, NotTokens(t)) && pos + |NotTokens(t)| == p.pos && NotExpr(t) == p.e
  }

  ghost predicate PrimarySpells(tokens: seq<Token>, pos: nat, p: Parsed, t: Primary) {
    At(tokens, pos, PrimaryTokens(t)) && pos + |PrimaryTokens(t)| == p.pos && PrimaryExpr(t) == p.e
  }

  lemma {:induction false} OrSound(tokens: seq<Token>, pos: nat) returns (t: OrTree)
    requires pos <= |tokens| && ParseOr(tokens, pos).Ok?
    ensures OrSpells(tokens, pos, ParseOr(tokens, pos).value, t)
    decreases |tokens| - pos, 6
  {
    var first := AndSound(tokens, pos);
    t := OrLoopSound(tokens, pos, OneAnd(first));
  }

  lemma {:induction false} OrLoopSound(tokens: seq<Token>, start: nat, front: OrTree) returns (t: OrTree)
    requires At(tokens, start, OrTokens(front)) && OrTokens(front) != []
    requires OrLoop(OrExpr(front), tokens, start + |OrTokens(front)|).Ok?
    ensures OrSpells(tokens, start, OrLoop(OrExpr(front), tokens, start + |OrTokens(front)|).value, t)
    decreases |tokens| - start - |OrTokens(front)|, 5
  {
    var pos := start + |OrTokens(front)|;
    t := front;
    if Next(tokens, pos, Or) {
      var last := AndSound(tokens, pos + 1);
      OrThenAt(tokens, start, front, last);
      t := OrLoopSound(tokens, start, OrThen(front, last));
    }
  }

  lemma {:induction false} AndSound(tokens: seq<Token>, pos: nat) returns (t: AndTree)
    requires pos <= |tokens| && ParseAnd(tokens, pos).Ok?
    ensures AndSpells(tokens, pos, ParseAnd(tokens, pos).value, t)
    decreases |tokens| - pos, 4
  {
    var first := NotSound(tokens, pos);
    t := AndLoopSound(tokens, pos, OneNot(first));
  }

  lemma {:induction false} AndLoopSound(tokens: seq<Token>, start: nat, front: AndTree) returns (t: AndTree)
    requires At(tokens, start, AndTokens(front)) && AndTokens(front) != []
    requires AndLoop(AndExpr(front), tokens, start + |AndTokens(front)|).Ok?
    ensures AndSpells(tokens, start, AndLoop(AndExpr(front), tokens, start + |AndTokens(front)|).value, t)
    decreases |tokens| - start - |AndTokens(front)|, 3
  {
    hide At, NotTokens, NotExpr;
    var pos := start + |AndTokens(front)|;
    t := front;
    if Next(tokens, pos, And) {
      var last := NotSound(tokens, pos + 1);
      AndThenAt(tokens, start, front, last);
      t := AndLoopSound(tokens, start, AndThen(front, last));
    }
  }

  lemma {:induction false} NotSound(tokens: seq<Token>, pos: nat) returns (t: NotTree)
    requires pos <= |tokens| && ParseNot(tokens, pos).Ok?
    ensures NotSpells(tokens, pos, ParseNot(tokens, pos).value, t)
    decreases |tokens| - pos, 2
  {
    if Next(tokens, pos, Not) {
      var inner := NotSound(tokens, pos + 1);
      AtOne(tokens, pos, Not, NotTokens(inner));
      t := Negated(inner);
    } else {
      t := CompareSound(tokens, pos);
    }
  }

  lemma {:induction false} CompareSound(tokens: seq<Token>, pos: nat) returns (t: NotTree)
    requires pos <= |tokens| && ParseCompare(tokens, pos).Ok?
    ensures NotSpells(tokens, pos, ParseCompare(tokens, pos).value, t)
    decreases |tokens| - pos, 1
  {
    hide At, PrimaryTokens, PrimaryExpr, ParsePrimary;
    var left := PrimarySound(tokens, pos);
    t := Bare(left);
    var middle := ParsePrimary(tokens, pos).value.pos;
    if !EndsCompare(tokens, middle) {
      var right := PrimarySound(tokens, middle + 1);
      var op := Comparison(tokens[middle]).value;
      ComparedAt(tokens, pos, left, op, right);
      t := Compared(left, op, right);
    }
  }

  lemma {:induction false} PrimarySound(tokens: seq<Token>, pos: nat) returns (t: Primary)
    requires pos <= |tokens| && ParsePrimary(tokens, pos).Ok?
    ensures PrimarySpells(tokens, pos, ParsePrimary(tokens, pos).value, t)
    decreases |tokens| - pos, 0
  {
    hide OrLoop, AndLoop, OrTokens, OrExpr;
    match tokens[pos] {
      case LParen =>
        var inner := OrSound(tokens, pos + 1);
        ParensAt(tokens, pos, inner);
        t := Parens(inner);
      case BoolLit(b) => t := PBool(b);
      case NumberLit(n) => t := PNumber(n);
      case StringLit(s) => t := PString(s);
      case Ident(x) => t := PVar(x);
      case _ => t := PNil;
    }
  }

  // Completeness: what the grammar derives, the parser accepts, with the tree it denotes.

  lemma CompareStep(tokens: seq<Token>, pos: nat, left: Parsed, op: CmpOp, right: Parsed)
    requires pos < |tokens| && tokens[pos] != Not && ParsePrimary(tokens, pos) == Ok(left)
    requires Next(tokens, left.pos, OpToken(op)) && ParsePrimary(tokens, left.pos + 1) == Ok(right)
    ensures ParseNot(tokens, pos) == Ok(Parsed(ECompare(left.e, op, right.e), right.pos))
  {
    assert Comparison(OpToken(op)) == Some(op);
    assert ParseCompare(tokens, pos) == Ok(Parsed(ECompare(left.e, op, right.e), right.pos));
  }

  lemma BareStep(tokens: seq<Token>, pos: nat, p: Parsed)
    requires pos < |tokens| && tokens[pos] != Not && ParsePrimary(tokens, pos) == Ok(p)
    requires EndsCompare(tokens, p.pos)
    ensures ParseNot(tokens, pos) == Ok(p)
  {
    assert ParseCompare(tokens, pos) == Ok(p);
  }

  lemma NegatedStep(tokens: seq<Token>, pos: nat, inner: Parsed)
    requires Next(tokens, pos, Not) && ParseNot(tokens, pos + 1) == Ok(inner)
    ensures ParseNot(tokens, pos) == Ok(Parsed(ENot(inner.e), inner.pos))
  {
  }

  lemma OrStep(tokens: seq<Token>, pos: nat, left: Expr, middle: nat, right: Parsed)
    requires pos <= |tokens| && Next(tokens, middle, Or) && ParseOr(tokens, pos) == OrLoop(left, tokens, middle)
    requires ParseAnd(tokens, middle + 1) == Ok(right)
    ensures right.pos <= |tokens| && ParseOr(tokens, pos) == OrLoop(EOr(left, right.e), tokens, right.pos)
  {
  }

  lemma ParensStep(tokens: seq<Token>, pos: nat, inner: Parsed)
    requires Next(tokens, pos, LParen) && ParseOr(tokens, pos + 1) == Ok(inner) && Next(tokens, inner.pos, RParen)
    ensures ParsePrimary(tokens, pos) == Ok(Parsed(inner.e, inner.pos + 1))
  {
  }

  lemma LoopEnds(tokens: seq<Token>, pos: nat, e: Expr)
    requires pos <= |tokens|
    ensures !Next(tokens, pos, And) ==> AndLoop(e, tokens, pos) == Ok(Parsed(e, pos))
    ensures !Next(tokens, pos, Or) ==> OrLoop(e, tokens, pos) == Ok(Parsed(e, pos))
  {
  }

  lemma AndStep(tokens: seq<Token>, pos: nat, left: Expr, middle: nat, right: Parsed)
    requires pos <= |tokens| && Next(tokens, middle, And) && ParseAnd(tokens, pos) == AndLoop(left, tokens, middle)
    requires ParseNot(tokens, middle + 1) == Ok(right)
    ensures right.pos <= |tokens| && ParseAnd(tokens, pos) == AndLoop(EAnd(left, right.e), tokens, right.pos)
  {
  }

  lemma {:induction false} OrComplete(tokens: seq<Token>, pos: nat, t: OrTree)
    requires At(tokens, pos, OrTokens(t))
    requires var end := pos + |OrTokens(t)|; EndsCompare(tokens, end) && !Next(tokens, end, And)
    ensures ParseOr(tokens, pos) == OrLoop(OrExpr(t), tokens, pos + |OrTokens(t)|)
    decreases t, 1
  {
    match t {
      case OneAnd(a) =>
        AndComplete(tokens, pos, a);
        LoopEnds(tokens, pos + |AndTokens(a)|, AndExpr(a));
      case OrThen(front, last) =>
        OrThenComplete(tokens, pos, front, last);
    }
  }

  lemma {:induction false} OrThenComplete(tokens: seq<Token>, pos: nat, front: OrTree, last: AndTree)
    requires At(tokens, pos, OrTokens(OrThen(front, last)))
    requires var end := pos + |OrTokens(front)| + 1 + |AndTokens(last)|;
      EndsCompare(tokens, end) && !Next(tokens, end, And)
    ensures ParseOr(tokens, pos) ==
      OrLoop(EOr(OrExpr(front), AndExpr(last)), tokens, pos + |OrTokens(front)| + 1 + |AndTokens(last)|)
    decreases OrThen(front, last), 0
  {
    hide AndTokens, AndExpr, ParseOr, ParseAnd, OrLoop, AndLoop;
    var middle := pos + |OrTokens(front)|;
    var end := middle + 1 + |AndTokens(last)|;
    OrThenAt(tokens, pos, front, last);
    OrComplete(tokens, pos, front);
    AndComplete(tokens, middle + 1, last);
    LoopEnds(tokens, end, AndExpr(last));
    OrStep(tokens, pos, OrExpr(front), middle, Parsed(AndExpr(last), end));
  }

  lemma {:induction false} AndComplete(tokens: seq<Token>, pos: nat, t: AndTree)
    requires At(tokens, pos, AndTokens(t)) && EndsCompare(tokens, pos + |AndTokens(t)|)
    ensures ParseAnd(tokens, pos) == AndLoop(AndExpr(t), tokens, pos + |AndTokens(t)|)
    decreases t, 1
  {
    match t {
      case OneNot(n) =>
        NotComplete(tokens, pos, n);
      case AndThen(front, last) =>
        AndThenComplete(tokens, pos, front, last);
    }
  }

  lemma {:induction false} AndThenComplete(tokens: seq<Token>, pos: nat, front: AndTree, last: NotTree)
    requires At(tokens, pos, AndTokens(AndThen(front, last)))
    requires EndsCompare(tokens, pos + |AndTokens(front)| + 1 + |NotTokens(last)|)
    ensures ParseAnd(tokens, pos) ==
      AndLoop(EAnd(AndExpr(front), NotExpr(last)), tokens, pos + |AndTokens(front)| + 1 + |NotTokens(last)|)
    decreases AndThen(front, last), 0
  {
    hide At, NotTokens, NotExpr, ParseNot, ParseAnd, AndLoop;
    var middle := pos + |AndTokens(front)|;
    var end := middle + 1 + |NotTokens(last)|;
    AndThenAt(tokens, pos, front, last);
    AndComplete(tokens, pos, front);
    NotComplete(tokens, middle + 1, last);
    AndStep(tokens, pos, AndExpr(front), middle, Parsed(NotExpr(last), end));
  }

  lemma {:induction false} NotComplete(tokens: seq<Token>, pos: nat, t: NotTree)
    requires At(tokens, pos, NotTokens(t)) && EndsCompare(tokens, pos + |NotTokens(t)|)
    ensures ParseNot(tokens, pos) == Ok(Parsed(NotExpr(t), pos + |NotTokens(t)|))
    decreases t, 1
  {
    hide PrimaryTokens, PrimaryExpr, ParsePrimary;
    match t {
      case Negated(n) =>
        AtOne(tokens, pos, Not, NotTokens(n));
        NotComplete(tokens, pos + 1, n);
        NegatedStep(tokens, pos, Parsed(NotExpr(n), pos + 1 + |NotTokens(n)|));
      case Bare(p) =>
        PrimaryComplete(tokens, pos, p);
        BareStep(tokens, pos, Parsed(PrimaryExpr(p), pos + |PrimaryTokens(p)|));
      case Compared(left, op, right) =>
        ComparedComplete(tokens, pos, left, op, right);
    }
  }

  lemma {:induction false} ComparedComplete(tokens: seq<Token>, pos: nat, left: Primary, op: CmpOp, right: Primary)
    requires At(tokens, pos, NotTokens(Compared(left, op, right)))
    ensures ParseNot(tokens, pos) == Ok(Parsed(ECompare(PrimaryExpr(left), op, PrimaryExpr(right)),
        pos + |PrimaryTokens(left)| + 1 + |PrimaryTokens(right)|))
    decreases Compared(left, op, right), 0
  {
    hide At, Next, PrimaryTokens, PrimaryExpr, ParsePrimary, ParseNot;
    var middle := pos + |PrimaryTokens(left)|;
    ComparedAt(tokens, pos, left, op, right);
    PrimaryComplete(tokens, pos, left);
    PrimaryComplete(tokens, middle + 1, right);
    CompareStep(tokens, pos, Parsed(PrimaryExpr(left), middle), op,
      Parsed(PrimaryExpr(right), middle + 1 + |PrimaryTokens(right)|));
  }

  lemma {:induction false} PrimaryComplete(tokens: seq<Token>, pos: nat, p: Primary)
    requires At(tokens, pos, PrimaryTokens(p))
    ensures ParsePrimary(tokens, pos) == Ok(Parsed(PrimaryExpr(p), pos + |PrimaryTokens(p)|))
    ensures pos < |tokens| && tokens[pos] != Not
    decreases p
  {
    hide OrLoop, AndLoop, ParseOr, OrTokens, OrExpr;
    match p {
      case Parens(inner) =>
        var close := pos + 1 + |OrTokens(inner)|;
        ParensAt(tokens, pos, inner);
        OrComplete(tokens, pos + 1, inner);
        LoopEnds(tokens, close, OrExpr(inner));
        ParensStep(tokens, pos, Parsed(OrExpr(inner), close));
      case _ =>
        AtOne(tokens, pos, PrimaryTokens(p)[0], []);
    }
  }

  /** The parser accepts exactly the derivable token lists, with the tree of the derivation. */
  lemma ParseCorrect(tokens: seq<Token>, e: Expr)
    ensures ParseAll(tokens) == Ok(e) <==> Derives(tokens, e)
  {
    if ParseAll(tokens) == Ok(e) {
      var t := OrSound(tokens, 0);
      assert OrTokens(t) == tokens;
    }
    if Derives(tokens, e) {
      var t: OrTree :| OrTokens(t) == tokens && OrExpr(t) == e;
      assert At(tokens, 0, OrTokens(t));
      OrComplete(tokens, 0, t);
    }
  }

  /** The grammar is unambiguous: a token list has at most one tree. */
  lemma Unambiguous(t1: OrTree, t2: OrTree)
    requires OrTokens(t1) == OrTokens(t2)
    ensures OrExpr(t1) == OrExpr(t2)
  {
    ParseCorrect(OrTokens(t1), OrExpr(t1));
    ParseCorrect(OrTokens(t1), OrExpr(t2));
  }

  // Printing with as few parentheses as the grammar allows.

  function AsOr(e: Expr): OrTree
    decreases e, 0
  {
    match e
    case EOr(l, r) => OrThen(AsOr(l), AsAnd(r))
    case EAnd(l, r) => OneAnd(AndThen(AsAnd(l), AsNot(r)))
    case ENot(i) => OneAnd(OneNot(Negated(AsNot(i))))
    case ECompare(l, op, r) => OneAnd(OneNot(Compared(AsPrimary(l), op, AsPrimary(r))))
    case _ => OneAnd(OneNot(Bare(Atom(e))))
  }

  function AsAnd(e: Expr): AndTree
    decreases e, 1
  {
    match e
    case EOr(_, _) => OneNot(Bare(Parens(AsOr(e))))
    case _ => AsOr(e).a
  }

  function AsNot(e: Expr): NotTree
    decreases e, 1
  {
    match e
    case EOr(_, _) => Bare(Parens(AsOr(e)))
    case EAnd(_, _) => Bare(Parens(AsOr(e)))
    case _ => AsOr(e).a.n
  }

  function AsPrimary(e: Expr): Primary
    decreases e, 1
  {
    if e.EOr? || e.EAnd? || e.ENot? || e.ECompare? then Parens(AsOr(e)) else Atom(e)
  }

  function Atom(e: Expr): Primary
    requires !(e.EOr? || e.EAnd? || e.ENot? || e.ECompare?)
  {
    match e
    case EBool(b) => PBool(b)
    case ENumber(n) => PNumber(n)
    case EString(s) => PString(s)
    case EVar(x) => PVar(x)
    case ENil => PNil
  }

  function Print(e: Expr): seq<Token> {
    OrTokens(AsOr(e))
  }

  lemma {:induction false} PrintedTree(e: Expr)
    ensures OrExpr(AsOr(e)) == e
    ensures AndExpr(AsAnd(e)) == e
    ensures NotExpr(AsNot(e)) == e
    ensures PrimaryExpr(AsPrimary(e)) == e
  {
    match e {
      case EOr(l, r) =>
        PrintedTree(l);
        PrintedTree(r);
      case EAnd(l, r) =>
        PrintedTree(l);
        PrintedTree(r);
        assert AndExpr(AndThen(AsAnd(l), AsNot(r))) == e;
      case ENot(i) =>
        PrintedTree(i);
        PrintedNot(e, Negated(AsNot(i)));
      case ECompare(l, op, r) =>
        PrintedTree(l);
        PrintedTree(r);
        PrintedNot(e, Compared(AsPrimary(l), op, AsPrimary(r)));
      case _ =>
        assert PrimaryExpr(Atom(e)) == e;
        PrintedNot(e, Bare(Atom(e)));
    }
    assert PrimaryExpr(Parens(AsOr(e))) == e;
    PrintedNot(e, Bare(Parens(AsOr(e))));
  }

  lemma PrintedNot(e: Expr, n: NotTree)
    requires NotExpr(n) == e
    ensures AndExpr(OneNot(n)) == e && OrExpr(OneAnd(OneNot(n))) == e
  {
  }

  /** Parsing a printed expression returns it. */
  lemma PrintParses(e: Expr)
    ensures ParseAll(Print(e)) == Ok(e)
  {
    PrintedTree(e);
    ParseCorrect(Print(e), e);
  }

  /** No way of writing an expression is shorter than the printed one. */
  lemma {:induction false} PrintIsShortestOr(t: OrTree)
    ensures |Print(OrExpr(t))| <= |OrTokens(t)|
    decreases t
  {
    match t {
      case OneAnd(a) => PrintIsShortestAnd(a);
      case OrThen(front, last) => PrintIsShortestOr(front); PrintIsShortestAnd(last);
    }
  }

  lemma {:induction false} PrintIsShortestAnd(t: AndTree)
    ensures |AndTokens(AsAnd(AndExpr(t)))| <= |AndTokens(t)|
    ensures |Print(AndExpr(t))| <= |AndTokens(t)|
    decreases t
  {
    match t {
      case OneNot(n) => PrintIsShortestNot(n);
      case AndThen(front, last) => PrintIsShortestAnd(front); PrintIsShortestNot(last);
    }
  }

  lemma {:induction false} PrintIsShortestNot(t: NotTree)
    ensures |NotTokens(AsNot(NotExpr(t)))| <= |NotTokens(t)|
    ensures |AndTokens(AsAnd(NotExpr(t)))| <= |NotTokens(t)|
    ensures |Print(NotExpr(t))| <= |NotTokens(t)|
    decreases t
  {
    match t {
      case Negated(n) => PrintIsShortestNot(n);
      case Bare(p) => PrintIsShortestPrimary(p);
      case Compared(left, op, right) => PrintIsShortestPrimary(left); PrintIsShortestPrimary(right);
    }
  }

  lemma ParensCostTwo(e: Expr)
    ensures |PrimaryTokens(AsPrimary(e))| <= |Print(e)| + 2
    ensures |NotTokens(AsNot(e))| <= |Print(e)| + 2
    ensures |AndTokens(AsAnd(e))| <= |Print(e)| + 2
  {
    var t := Parens(AsOr(e));
    assert |PrimaryTokens(t)| == |Print(e)| + 2;
    assert NotTokens(Bare(t)) == PrimaryTokens(t) && AndTokens(OneNot(Bare(t))) == NotTokens(Bare(t));
    if !e.EOr? {
      assert Print(e) == AndTokens(AsOr(e).a);
      if !e.EAnd? { assert Print(e) == NotTokens(AsOr(e).a.n); }
    }
  }

  lemma {:induction false} PrintIsShortestPrimary(p: Primary)
    ensures |PrimaryTokens(AsPrimary(PrimaryExpr(p)))| <= |PrimaryTokens(p)|
    ensures |NotTokens(AsNot(PrimaryExpr(p)))| <= |PrimaryTokens(p)|
    ensures |AndTokens(AsAnd(PrimaryExpr(p)))| <= |PrimaryTokens(p)|
    ensures |Print(PrimaryExpr(p))| <= |PrimaryTokens(p)|
    decreases p
  {
    match p {
      case Parens(inner) =>
        PrintIsShortestOr(inner);
        ParensCostTwo(OrExpr(inner));
      case _ =>
    }
  }
}
