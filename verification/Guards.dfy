/** Guards (`crates/luaml/src/guard.rs`). */
module Guards {
  // Evaluation of guard expressions, and what joining several `?` lines with " and " means.

  import opened Wrappers
  import opened Values
  import KeyOrder
  import opened GuardLexer
  import opened GuardGrammar
  import opened GuardParser

  type Verdict = Result<bool, GuardError>

  datatype GuardValue = GBool(truth: bool) | GFloat(number: Float) | GString(text: string) | GNull

  function FromFieldValue(lib: NumberLib, v: FieldValue): GuardValue {
    match v
    case Bool(b) => GBool(b)
    case Number(n) => GFloat(lib.fromInt(n))
    case Flt(f) => GFloat(f)
    case Str(s) => GString(s)
    case Enum(s) => GString(s)
    case Null => GNull
    case List(_) => GNull
    case Map(_) => GNull
  }

  function AsF64(lib: NumberLib, v: GuardValue): Option<Float> {
    match v
    case GFloat(f) => Some(f)
    case GString(s) => lib.parse(s)
    case _ => None
  }

  predicate CoercedEq(lib: NumberLib, n: Float, s: string) {
    match lib.parse(s)
    case Some(f) => f.IeeeEq(n)
    case None => false
  }

  predicate GuardEq(lib: NumberLib, a: GuardValue, b: GuardValue) {
    match (a, b)
    case (GNull, GNull) => true
    case (GBool(x), GBool(y)) => x == y
    case (GFloat(x), GFloat(y)) => x.IeeeEq(y)
    case (GString(x), GString(y)) => x == y
    case (GFloat(n), GString(s)) => CoercedEq(lib, n, s)
    case (GString(s), GFloat(n)) => CoercedEq(lib, n, s)
    case _ => false
  }

  function StrCmp(a: string, b: string): Ordering {
    if a == b then Equal else if KeyOrder.StrLe(a, b) then Less else Greater
  }

  function GuardCmp(lib: NumberLib, a: GuardValue, b: GuardValue): Option<Ordering> {
    match (AsF64(lib, a), AsF64(lib, b))
    case (Some(x), Some(y)) => x.PartialCmp(y)
    case _ => if a.GString? && b.GString? then Some(StrCmp(a.text, b.text)) else None
  }

  function ResolveValue(lib: NumberLib, e: Expr, bindings: FieldBindings): Result<GuardValue, GuardError> {
    match e
    case EBool(b) => Ok(GBool(b))
    case ENumber(n) => Ok(GFloat(n))
    case EString(s) => Ok(GString(s))
    case ENil => Ok(GNull)
    case EVar(x) => Ok(if x in bindings then FromFieldValue(lib, bindings[x]) else GNull)
    case _ => Err(ComplexComparison)
  }

  function EvalCompare(lib: NumberLib, left: Expr, op: CmpOp, right: Expr, bindings: FieldBindings): Verdict {
    match ResolveValue(lib, left, bindings)
    case Err(error) => Err(error)
    case Ok(a) =>
      match ResolveValue(lib, right, bindings)
      case Err(error) => Err(error)
      case Ok(b) =>
        var cmp := GuardCmp(lib, a, b);
        Ok(match op
           case OpEq => GuardEq(lib, a, b)
           case OpNeq => !GuardEq(lib, a, b)
           case OpLt => cmp == Some(Less)
           case OpGt => cmp == Some(Greater)
           case OpLte => cmp.Some? && cmp != Some(Greater)
           case OpGte => cmp.Some? && cmp != Some(Less))
  }

  predicate Truthy(v: FieldValue) {
    match v
    case Bool(b) => b
    case Number(n) => n != 0
    case Flt(f) => !f.IeeeEq(Float(0))
    case Str(s) => s != ""
    case Null => false
    case _ => true
  }

  function EvalBool(lib: NumberLib, e: Expr, bindings: FieldBindings): Verdict {
    match e
    case EBool(b) => Ok(b)
    case ENumber(n) => Ok(!n.IeeeEq(Float(0)))
    case EString(s) => Ok(s != "")
    case ENil => Ok(false)
    case EVar(x) => Ok(x in bindings && Truthy(bindings[x]))
    case ENot(i) =>
      (match EvalBool(lib, i, bindings)
       case Ok(b) => Ok(!b)
       case Err(error) => Err(error))
    case EAnd(l, r) =>
      (match EvalBool(lib, l, bindings)
       case Ok(true) => EvalBool(lib, r, bindings)
       case stop => stop)
    case EOr(l, r) =>
      (match EvalBool(lib, l, bindings)
       case Ok(false) => EvalBool(lib, r, bindings)
       case stop => stop)
    case ECompare(l, op, r) => EvalCompare(lib, l, op, r, bindings)
  }

  /** The expression a guard text stands for. */
  function ParseText(lib: NumberLib, text: string): Result<Expr, GuardError> {
    match Lex(lib, text)
    case Err(error) => Err(error)
    case Ok(tokens) => ParseAll(tokens)
  }

  function EvaluateText(lib: NumberLib, text: string, bindings: FieldBindings): Verdict {
    match ParseText(lib, text)
    case Err(error) => Err(error)
    case Ok(e) => EvalBool(lib, e, bindings)
  }

  method EvaluateGuard(lib: NumberLib, text: string, bindings: FieldBindings) returns (verdict: Verdict)
    ensures verdict == EvaluateText(lib, text, bindings)
  {
    var lexed := Tokenize(lib, text);
    if lexed.Err? {
      return Err(lexed.error);
    }
    var parser := new Parser(lexed.value);
    var ast := parser.OrExpression();
    if ast.Err? {
      return Err(ast.error);
    }
    if parser.pos < |parser.tokens| {
      return Err(TrailingToken(parser.tokens[parser.pos]));
    }
    return EvalBool(lib, ast.value, bindings);
  }

  // Several guard lines.

  const AND_TEXT := " and "

  /** `guards.join(" and ")`. */
  function JoinLines(lines: seq<string>): string {
    if lines == [] then ""
    else if |lines| == 1 then lines[0]
    else lines[0] + (AND_TEXT + JoinLines(lines[1..]))
  }

  /** The lines stand side by side with " and " between neighbours. */
  lemma {:induction false} JoinAppends(a: seq<string>, b: seq<string>)
    requires a != [] && b != []
    ensures JoinLines(a + b) == JoinLines(a) + " and " + JoinLines(b)
    ensures |a| == 1 ==> JoinLines(a) == a[0]
  {
    if |a| == 1 {
      assert (a + b)[1..] == b;
      ConcatThree(a[0], " and ", JoinLines(b));
    } else {
      var rest := JoinLines(a[1..]);
      JoinAppends(a[1..], b);
      assert (a + b)[0] == a[0] && (a + b)[1..] == a[1..] + b;
      ConcatThree(" and ", rest, " and " + JoinLines(b));
      ConcatThree(a[0], " and " + rest, " and " + JoinLines(b));
      ConcatThree(rest, " and ", JoinLines(b));
      ConcatThree(a[0] + (" and " + rest), " and ", JoinLines(b));
      hide JoinLines;
    }
  }

  /** A line that is a guard of its own. */
  predicate Valid(lib: NumberLib, line: string) {
    ParseText(lib, line).Ok?
  }

  ghost predicate AllValid(lib: NumberLib, lines: seq<string>) {
    forall i | 0 <= i < |lines| :: Valid(lib, lines[i])
  }

  /** An `or` outside all parentheses, where `depth` of them are open at the start. */
  predicate HasTopOr(tokens: seq<Token>, depth: int) {
    tokens != [] &&
    match tokens[0]
    case Or => depth == 0 || HasTopOr(tokens[1..], depth)
    case LParen => HasTopOr(tokens[1..], depth + 1)
    case RParen => HasTopOr(tokens[1..], depth - 1)
    case _ => HasTopOr(tokens[1..], depth)
  }

  predicate TopLevelOr(lib: NumberLib, line: string) {
    Lex(lib, line).Ok? && HasTopOr(Lex(lib, line).value, 0)
  }

  ghost predicate NoTopLevelOr(lib: NumberLib, lines: seq<string>) {
    forall i | 0 <= i < |lines| :: !TopLevelOr(lib, lines[i])
  }

  /** The second verdict counts only if the first is true. */
  function Both(a: Verdict, b: Verdict): Verdict {
    if a == Ok(true) then b else a
  }

  /** All lines, from left to right, stopping at the first that is false or fails. */
  function Conjunction(lib: NumberLib, lines: seq<string>, bindings: FieldBindings): Verdict {
    if lines == [] then Ok(true)
    else Both(EvaluateText(lib, lines[0], bindings), Conjunction(lib, lines[1..], bindings))
  }

  // Derivations of joined token lists.

  function AppendAnd(a: AndTree, b: AndTree): AndTree {
    match b
    case OneNot(n) => AndThen(a, n)
    case AndThen(front, last) => AndThen(AppendAnd(a, front), last)
  }

  /** `a and b` as the grammar reads it: the last disjunct of `a` meets the first of `b`. */
  function Merge(a: OrTree, b: OrTree): OrTree {
    match b
    case OrThen(front, last) => OrThen(Merge(a, front), last)
    case OneAnd(x) =>
      match a
      case OneAnd(y) => OneAnd(AppendAnd(y, x))
      case OrThen(front, last) => OrThen(front, AppendAnd(last, x))
  }

  lemma {:induction false} AppendAndTokens(a: AndTree, b: AndTree)
    ensures AndTokens(AppendAnd(a, b)) == AndTokens(a) + ([And] + AndTokens(b))
  {
    match b {
      case OneNot(n) =>
      case AndThen(front, last) =>
        AppendAndTokens(a, front);
        var tail := [And] + NotTokens(last);
        assert (AndTokens(a) + ([And] + AndTokens(front))) + tail == AndTokens(a) + ([And] + (AndTokens(front) + tail));
    }
  }

  lemma {:induction false} MergeTokens(a: OrTree, b: OrTree)
    ensures OrTokens(Merge(a, b)) == OrTokens(a) + ([And] + OrTokens(b))
  {
    match b {
      case OrThen(front, last) =>
        MergeTokens(a, front);
        var tail := [Or] + AndTokens(last);
        assert (OrTokens(a) + ([And] + OrTokens(front))) + tail == OrTokens(a) + ([And] + (OrTokens(front) + tail));
      case OneAnd(x) =>
        match a {
          case OneAnd(y) => AppendAndTokens(y, x);
          case OrThen(front, last) =>
            AppendAndTokens(last, x);
            var tail := [And] + AndTokens(x);
            assert OrTokens(front) + ([Or] + (AndTokens(last) + tail)) ==
              (OrTokens(front) + ([Or] + AndTokens(last))) + tail;
        }
    }
  }

  lemma {:induction false} AppendAndMeans(lib: NumberLib, a: AndTree, b: AndTree, bindings: FieldBindings)
    ensures EvalBool(lib, AndExpr(AppendAnd(a, b)), bindings)
         == Both(EvalBool(lib, AndExpr(a), bindings), EvalBool(lib, AndExpr(b), bindings))
  {
    match b {
      case OneNot(n) =>
      case AndThen(front, last) => AppendAndMeans(lib, a, front, bindings);
    }
  }

  // An `or` at the top level shows in the derivation.

  lemma {:induction false} OrTreeTopOr(t: OrTree, rest: seq<Token>, depth: nat)
    ensures HasTopOr(OrTokens(t) + rest, depth) <==> (depth == 0 && t.OrThen?) || HasTopOr(rest, depth)
    decreases t
  {
    match t {
      case OneAnd(a) => AndTreeTopOr(a, rest, depth);
      case OrThen(front, last) =>
        var tail := [Or] + (AndTokens(last) + rest);
        assert OrTokens(t) + rest == OrTokens(front) + tail;
        OrTreeTopOr(front, tail, depth);
        AndTreeTopOr(last, rest, depth);
        assert tail[1..] == AndTokens(last) + rest;
    }
  }

  lemma {:induction false} AndTreeTopOr(t: AndTree, rest: seq<Token>, depth: nat)
    ensures HasTopOr(AndTokens(t) + rest, depth) <==> HasTopOr(rest, depth)
    decreases t
  {
    match t {
      case OneNot(n) => NotTreeTopOr(n, rest, depth);
      case AndThen(front, last) =>
        var tail := [And] + (NotTokens(last) + rest);
        assert AndTokens(t) + rest == AndTokens(front) + tail;
        AndTreeTopOr(front, tail, depth);
        NotTreeTopOr(last, rest, depth);
        assert tail[1..] == NotTokens(last) + rest;
    }
  }

  lemma {:induction false} NotTreeTopOr(t: NotTree, rest: seq<Token>, depth: nat)
    ensures HasTopOr(NotTokens(t) + rest, depth) <==> HasTopOr(rest, depth)
    decreases t
  {
    match t {
      case Negated(n) =>
        NotTreeTopOr(n, rest, depth);
        assert (NotTokens(t) + rest)[1..] == NotTokens(n) + rest;
      case Bare(p) => PrimaryTopOr(p, rest, depth);
      case Compared(left, op, right) =>
        var tail := [OpToken(op)] + (PrimaryTokens(right) + rest);
        assert NotTokens(t) + rest == PrimaryTokens(left) + tail;
        PrimaryTopOr(left, tail, depth);
        PrimaryTopOr(right, rest, depth);
        assert tail[1..] == PrimaryTokens(right) + rest;
    }
  }

  lemma {:induction false} PrimaryTopOr(p: Primary, rest: seq<Token>, depth: nat)
    ensures HasTopOr(PrimaryTokens(p) + rest, depth) <==> HasTopOr(rest, depth)
    decreases p
  {
    match p {
      case Parens(inner) =>
        var tail := [RParen] + rest;
        assert (PrimaryTokens(p) + rest)[1..] == OrTokens(inner) + tail;
        OrTreeTopOr(inner, tail, depth + 1);
        assert tail[1..] == rest;
      case _ =>
        assert (PrimaryTokens(p) + rest)[1..] == rest;
    }
  }

  /** The derivation of a valid line; it is a disjunction exactly when an `or` stands at the top level. */
  lemma LineTree(lib: NumberLib, line: string) returns (t: OrTree)
    requires Valid(lib, line)
    ensures Lex(lib, line) == Ok(OrTokens(t)) && ParseText(lib, line) == Ok(OrExpr(t))
    ensures TopLevelOr(lib, line) <==> t.OrThen?
  {
    var tokens := Lex(lib, line).value;
    ParseCorrect(tokens, ParseAll(tokens).value);
    t :| OrTokens(t) == tokens && OrExpr(t) == ParseAll(tokens).value;
    OrTreeTopOr(t, [], 0);
    assert tokens + [] == tokens;
  }

  lemma LexAndText(lib: NumberLib, rest: string)
    ensures Lex(lib, AND_TEXT + rest) == Prepend([And], Lex(lib, rest))
  {
    var s := AND_TEXT + rest;
    var word := "and " + rest;
    assert s[1..] == word && FirstStep(lib, s) == Skip(1);
    RunIs(word, IsWordChar, 3);
    assert word[..3] == "and" && FirstStep(lib, word) == Push(And, 3);
    assert word[3..] == " " + rest && (" " + rest)[1..] == rest;
    assert FirstStep(lib, " " + rest) == Skip(1);
    assert Lex(lib, " " + rest) == Lex(lib, rest);
    assert Lex(lib, word) == Prepend([And], Lex(lib, rest));
  }

  /** Two texts joined by " and " read as the merge of their derivations. */
  lemma JoinTwo(lib: NumberLib, a: string, b: string, ta: OrTree, tb: OrTree)
    requires Lex(lib, a) == Ok(OrTokens(ta)) && Lex(lib, b) == Ok(OrTokens(tb))
    ensures Lex(lib, a + (AND_TEXT + b)) == Ok(OrTokens(Merge(ta, tb)))
    ensures ParseText(lib, a + (AND_TEXT + b)) == Ok(OrExpr(Merge(ta, tb)))
  {
    LexAppend(lib, a, AND_TEXT + b);
    LexAndText(lib, b);
    MergeTokens(ta, tb);
    ParseCorrect(OrTokens(Merge(ta, tb)), OrExpr(Merge(ta, tb)));
  }

  /** The derivation of joined valid lines. */
  lemma {:induction false} JoinTree(lib: NumberLib, lines: seq<string>) returns (t: OrTree)
    requires lines != [] && AllValid(lib, lines)
    ensures Lex(lib, JoinLines(lines)) == Ok(OrTokens(t)) && ParseText(lib, JoinLines(lines)) == Ok(OrExpr(t))
    ensures t.OneAnd? <==> NoTopLevelOr(lib, lines)
    ensures t.OneAnd? && |lines| > 1 ==> t.a.AndThen?
    ensures t.OneAnd? ==>
      forall bindings :: EvalBool(lib, OrExpr(t), bindings) == Conjunction(lib, lines, bindings)
  {
    hide Valid, Lex, ParseText, OrTokens, TopLevelOr;
    var first := LineTree(lib, lines[0]);
    if |lines| == 1 {
      t := first;
    } else {
      var rest := lines[1..];
      assert forall i | 0 <= i < |rest| :: rest[i] == lines[i + 1];
      assert forall i | 1 <= i < |lines| :: lines[i] == rest[i - 1];
      var tail := JoinTree(lib, rest);
      JoinTwo(lib, lines[0], JoinLines(rest), first, tail);
      t := Merge(first, tail);
      if t.OneAnd? {
        forall bindings ensures EvalBool(lib, OrExpr(t), bindings) == Conjunction(lib, lines, bindings) {
          AppendAndMeans(lib, first.a, tail.a, bindings);
        }
      }
    }
  }

  /**
   Lines that are guards of their own, with no `or` at their top level, mean their conjunction once
   joined: same verdict, same error, same order of evaluation.
   */
  lemma JoinedLinesAreAnded(lib: NumberLib, lines: seq<string>, bindings: FieldBindings)
    requires lines != [] && AllValid(lib, lines) && NoTopLevelOr(lib, lines)
    ensures EvaluateText(lib, JoinLines(lines), bindings) == Conjunction(lib, lines, bindings)
  {
    var t := JoinTree(lib, lines);
  }

  /** Several valid lines join to a conjunction exactly when none of them has an `or` at its top level. */
  lemma JoinIsConjunctionIff(lib: NumberLib, lines: seq<string>)
    requires |lines| >= 2 && AllValid(lib, lines)
    ensures ParseText(lib, JoinLines(lines)).Ok?
    ensures var e := ParseText(lib, JoinLines(lines)).value;
      if NoTopLevelOr(lib, lines) then e.EAnd? else e.EOr?
  {
    var t := JoinTree(lib, lines);
  }

  // What any valid lines mean once joined: each `and` joins the last disjunct of one line and the first of the next.

  /** The second verdict counts only if the first is false. */
  function Either(a: Verdict, b: Verdict): Verdict {
    if a == Ok(false) then b else a
  }

  /** The verdicts in turn, up to the first that is true or fails. */
  function AnyOf(verdicts: seq<Verdict>): Verdict {
    if verdicts == [] then Ok(false) else Either(verdicts[0], AnyOf(verdicts[1..]))
  }

  /** The verdicts of the disjuncts at the top level. */
  function Disjuncts(lib: NumberLib, t: OrTree, bindings: FieldBindings): (verdicts: seq<Verdict>)
    ensures verdicts != []
  {
    match t
    case OneAnd(a) => [EvalBool(lib, AndExpr(a), bindings)]
    case OrThen(front, last) => Disjuncts(lib, front, bindings) + [EvalBool(lib, AndExpr(last), bindings)]
  }

  function Splice(a: seq<Verdict>, b: seq<Verdict>): (verdicts: seq<Verdict>)
    requires a != [] && b != []
    ensures verdicts != []
  {
    a[..|a| - 1] + [Both(a[|a| - 1], b[0])] + b[1..]
  }

  /** The disjuncts of the lines that these trees derive, joined. */
  function JoinedDisjuncts(lib: NumberLib, trees: seq<OrTree>, bindings: FieldBindings): (verdicts: seq<Verdict>)
    requires trees != []
    ensures verdicts != []
  {
    var first := Disjuncts(lib, trees[0], bindings);
    if |trees| == 1 then first else Splice(first, JoinedDisjuncts(lib, trees[1..], bindings))
  }

  lemma {:induction false} AnyOfSnoc(verdicts: seq<Verdict>, v: Verdict)
    ensures AnyOf(verdicts + [v]) == Either(AnyOf(verdicts), v)
  {
    if verdicts == [] {
      assert [v][1..] == [];
    } else {
      AnyOfSnoc(verdicts[1..], v);
      assert (verdicts + [v])[1..] == verdicts[1..] + [v];
    }
  }

  lemma {:induction false} DisjunctsMean(lib: NumberLib, t: OrTree, bindings: FieldBindings)
    ensures EvalBool(lib, OrExpr(t), bindings) == AnyOf(Disjuncts(lib, t, bindings))
  {
    match t {
      case OneAnd(a) =>
        assert [EvalBool(lib, AndExpr(a), bindings)][1..] == [];
      case OrThen(front, last) =>
        DisjunctsMean(lib, front, bindings);
        AnyOfSnoc(Disjuncts(lib, front, bindings), EvalBool(lib, AndExpr(last), bindings));
    }
  }

  lemma SpliceSnoc(a: seq<Verdict>, b: seq<Verdict>, v: Verdict)
    requires a != [] && b != []
    ensures Splice(a, b + [v]) == Splice(a, b) + [v]
  {
    assert (b + [v])[0] == b[0] && (b + [v])[1..] == b[1..] + [v];
  }

  lemma {:induction false} MergeSplices(lib: NumberLib, a: OrTree, b: OrTree, bindings: FieldBindings)
    ensures Disjuncts(lib, Merge(a, b), bindings) == Splice(Disjuncts(lib, a, bindings), Disjuncts(lib, b, bindings))
  {
    match b {
      case OrThen(front, last) =>
        MergeSplices(lib, a, front, bindings);
        SpliceSnoc(Disjuncts(lib, a, bindings), Disjuncts(lib, front, bindings),
          EvalBool(lib, AndExpr(last), bindings));
      case OneAnd(x) =>
        match a {
          case OneAnd(y) => AppendAndMeans(lib, y, x, bindings);
          case OrThen(front, last) => AppendAndMeans(lib, last, x, bindings);
        }
    }
  }

  /** The trees derive the lines. */
  ghost predicate Derive(lib: NumberLib, lines: seq<string>, trees: seq<OrTree>) {
    |trees| == |lines| && forall i | 0 <= i < |lines| :: Lex(lib, lines[i]) == Ok(OrTokens(trees[i]))
  }

  /** Valid lines have derivations, and only valid lines do. */
  lemma DerivedIffValid(lib: NumberLib, lines: seq<string>)
    ensures AllValid(lib, lines) <==> exists trees :: Derive(lib, lines, trees)
  {
    if AllValid(lib, lines) {
      var trees := TreesOf(lib, lines);
    }
    if trees :| Derive(lib, lines, trees) {
      forall i | 0 <= i < |lines| ensures Valid(lib, lines[i]) {
        ParseCorrect(OrTokens(trees[i]), OrExpr(trees[i]));
      }
    }
  }

  lemma {:induction false} TreesOf(lib: NumberLib, lines: seq<string>) returns (trees: seq<OrTree>)
    requires AllValid(lib, lines)
    ensures Derive(lib, lines, trees)
  {
    hide Valid, TopLevelOr, ParseText, Lex, OrTokens, OrExpr;
    trees := [];
    if lines != [] {
      var first := LineTree(lib, lines[0]);
      assert AllValid(lib, lines[1..]);
      var rest := TreesOf(lib, lines[1..]);
      trees := [first] + rest;
      DeriveCons(lib, lines[0], first, lines[1..], rest);
      assert [lines[0]] + lines[1..] == lines;
    }
  }

  lemma DeriveCons(lib: NumberLib, line: string, t: OrTree, lines: seq<string>, trees: seq<OrTree>)
    requires Lex(lib, line) == Ok(OrTokens(t)) && Derive(lib, lines, trees)
    ensures Derive(lib, [line] + lines, [t] + trees)
  {
    hide Lex, OrTokens;
  }

  lemma {:induction false} JoinedTree(lib: NumberLib, lines: seq<string>, trees: seq<OrTree>, bindings: FieldBindings)
    returns (t: OrTree)
    requires lines != [] && Derive(lib, lines, trees)
    ensures Lex(lib, JoinLines(lines)) == Ok(OrTokens(t)) && ParseText(lib, JoinLines(lines)) == Ok(OrExpr(t))
    ensures Disjuncts(lib, t, bindings) == JoinedDisjuncts(lib, trees, bindings)
  {
    if |lines| == 1 {
      t := trees[0];
      ParseCorrect(OrTokens(t), OrExpr(t));
    } else {
      var rest := JoinedTree(lib, lines[1..], trees[1..], bindings);
      JoinTwo(lib, lines[0], JoinLines(lines[1..]), trees[0], rest);
      MergeSplices(lib, trees[0], rest, bindings);
      t := Merge(trees[0], rest);
    }
  }

  /** Any valid lines, joined: the disjuncts of the join in turn, errors and stopping order included. */
  lemma JoinMeans(lib: NumberLib, lines: seq<string>, trees: seq<OrTree>, bindings: FieldBindings)
    requires lines != [] && Derive(lib, lines, trees)
    ensures EvaluateText(lib, JoinLines(lines), bindings) == AnyOf(JoinedDisjuncts(lib, trees, bindings))
  {
    var t := JoinedTree(lib, lines, trees, bindings);
    DisjunctsMean(lib, t, bindings);
  }

  // When the join is the conjunction, for given bindings.

  function Front(verdicts: seq<Verdict>): Verdict
    requires verdicts != []
  {
    AnyOf(verdicts[..|verdicts| - 1])
  }

  function Last(verdicts: seq<Verdict>): Verdict
    requires verdicts != []
  {
    verdicts[|verdicts| - 1]
  }

  /** All lines from left to right, by the verdicts of their disjuncts. */
  function AllOf(lib: NumberLib, trees: seq<OrTree>, bindings: FieldBindings): Verdict {
    if trees == [] then Ok(true)
    else Both(AnyOf(Disjuncts(lib, trees[0], bindings)), AllOf(lib, trees[1..], bindings))
  }

  /**
   If the disjuncts of a line before its last are true, the later lines must hold; if none of its disjuncts is
   true, the join of the later lines must be false after its first disjunct; if only the last is true, the
   question is that of the later lines.  A line that fails is no obstacle.
   */
  predicate JoinAgrees(lib: NumberLib, trees: seq<OrTree>, bindings: FieldBindings)
    requires trees != []
  {
    |trees| == 1 ||
    var first, later := Disjuncts(lib, trees[0], bindings), JoinedDisjuncts(lib, trees[1..], bindings);
    if Front(first) == Ok(true) then AllOf(lib, trees[1..], bindings) == Ok(true)
    else if Front(first) == Ok(false) && Last(first) == Ok(false) then AnyOf(later[1..]) == Ok(false)
    else if Front(first) == Ok(false) && Last(first) == Ok(true) then JoinAgrees(lib, trees[1..], bindings)
    else true
  }

  lemma {:induction false} AnyOfConcat(a: seq<Verdict>, b: seq<Verdict>)
    ensures AnyOf(a + b) == Either(AnyOf(a), AnyOf(b))
  {
    if a == [] {
      assert a + b == b;
    } else {
      AnyOfConcat(a[1..], b);
      assert (a + b)[1..] == a[1..] + b;
    }
  }

  lemma AnyOfSplice(a: seq<Verdict>, b: seq<Verdict>)
    requires a != [] && b != []
    ensures AnyOf(Splice(a, b)) == Either(Front(a), Either(Both(Last(a), b[0]), AnyOf(b[1..])))
    ensures AnyOf(a) == Either(Front(a), Last(a))
  {
    var meeting := [Both(Last(a), b[0])];
    AnyOfConcat(a[..|a| - 1], meeting + b[1..]);
    assert Splice(a, b) == a[..|a| - 1] + (meeting + b[1..]) && (meeting + b[1..])[1..] == b[1..];
    AnyOfSnoc(a[..|a| - 1], Last(a));
    assert a == a[..|a| - 1] + [Last(a)];
  }

  lemma {:induction false} AgreesIff(lib: NumberLib, trees: seq<OrTree>, bindings: FieldBindings)
    requires trees != []
    ensures AnyOf(JoinedDisjuncts(lib, trees, bindings)) == AllOf(lib, trees, bindings) <==>
      JoinAgrees(lib, trees, bindings)
  {
    if |trees| == 1 {
      assert AllOf(lib, trees[1..], bindings) == Ok(true);
    } else {
      AgreesIff(lib, trees[1..], bindings);
      AnyOfSplice(Disjuncts(lib, trees[0], bindings), JoinedDisjuncts(lib, trees[1..], bindings));
    }
  }

  lemma {:induction false} AllOfIsConjunction(lib: NumberLib, lines: seq<string>, trees: seq<OrTree>,
      bindings: FieldBindings)
    requires Derive(lib, lines, trees)
    ensures AllOf(lib, trees, bindings) == Conjunction(lib, lines, bindings)
  {
    if lines != [] {
      AllOfIsConjunction(lib, lines[1..], trees[1..], bindings);
      ParseCorrect(OrTokens(trees[0]), OrExpr(trees[0]));
      DisjunctsMean(lib, trees[0], bindings);
    }
  }

  /** Valid lines, joined, evaluate as their conjunction under given bindings exactly when `JoinAgrees` says so. */
  lemma JoinIsConjunctionUnderIff(lib: NumberLib, lines: seq<string>, trees: seq<OrTree>, bindings: FieldBindings)
    requires lines != [] && Derive(lib, lines, trees)
    ensures EvaluateText(lib, JoinLines(lines), bindings) == Conjunction(lib, lines, bindings)
      <==> JoinAgrees(lib, trees, bindings)
  {
    JoinMeans(lib, lines, trees, bindings);
    AgreesIff(lib, trees, bindings);
    AllOfIsConjunction(lib, lines, trees, bindings);
  }

  /**
   Two valid lines, joined, evaluate as their conjunction exactly when the second holds if the first holds
   before its last disjunct, and the second is false after its first disjunct if the first is false.
   */
  lemma TwoLinesIff(lib: NumberLib, a: string, b: string, ta: OrTree, tb: OrTree, bindings: FieldBindings)
    requires Derive(lib, [a, b], [ta, tb])
    ensures EvaluateText(lib, JoinLines([a, b]), bindings) == Conjunction(lib, [a, b], bindings) <==>
      && (Front(Disjuncts(lib, ta, bindings)) == Ok(true) ==> EvaluateText(lib, b, bindings) == Ok(true))
      && (EvaluateText(lib, a, bindings) == Ok(false) ==> AnyOf(Disjuncts(lib, tb, bindings)[1..]) == Ok(false))
  {
    var trees := [ta, tb];
    JoinIsConjunctionUnderIff(lib, [a, b], trees, bindings);
    assert trees[1..] == [tb] && [tb][1..] == [];
    TreeMeans(lib, a, ta, bindings);
    TreeMeans(lib, b, tb, bindings);
    AnyOfSplice(Disjuncts(lib, ta, bindings), Disjuncts(lib, tb, bindings));
    assert AllOf(lib, [], bindings) == Ok(true);
    assert AllOf(lib, [tb], bindings) == Both(AnyOf(Disjuncts(lib, tb, bindings)), AllOf(lib, [], bindings));
    assert JoinedDisjuncts(lib, [tb], bindings) == Disjuncts(lib, tb, bindings);
  }

  lemma TreeMeans(lib: NumberLib, line: string, t: OrTree, bindings: FieldBindings)
    requires Lex(lib, line) == Ok(OrTokens(t))
    ensures EvaluateText(lib, line, bindings) == AnyOf(Disjuncts(lib, t, bindings))
  {
    ParseCorrect(OrTokens(t), OrExpr(t));
    DisjunctsMean(lib, t, bindings);
  }

  // Two lines such as `a or b` and `c` are not ANDed: together they mean `a or (b and c)`.

  const OR_TEXT := " or "

  function OrLine(x: char, y: char): string {
    [x] + (OR_TEXT + [y])
  }

  lemma LexOrText(lib: NumberLib, rest: string)
    ensures Lex(lib, OR_TEXT + rest) == Prepend([Or], Lex(lib, rest))
  {
    var s := OR_TEXT + rest;
    var word := "or " + rest;
    assert s[1..] == word && FirstStep(lib, s) == Skip(1);
    RunIs(word, IsWordChar, 2);
    assert word[..2] == "or" && FirstStep(lib, word) == Push(Or, 2);
    assert word[2..] == " " + rest && (" " + rest)[1..] == rest;
    assert FirstStep(lib, " " + rest) == Skip(1);
    assert Lex(lib, " " + rest) == Lex(lib, rest);
    assert Lex(lib, word) == Prepend([Or], Lex(lib, rest));
  }

  lemma LexName(lib: NumberLib, x: char, rest: string)
    requires IsLetter(x) && (rest != [] ==> !IsWordChar(rest[0]))
    ensures Lex(lib, [x] + rest) == Prepend([Ident([x])], Lex(lib, rest))
  {
    var s := [x] + rest;
    RunIs(s, IsWordChar, 1);
    assert s[..1] == [x] && s[1..] == rest;
    assert |s[..1]| == 1;
    assert FirstStep(lib, s) == Push(Ident([x]), 1);
  }

  function NameTree(x: char): OrTree {
    OneAnd(OneNot(Bare(PVar([x]))))
  }

  function OrLineTree(x: char, y: char): OrTree {
    OrThen(NameTree(x), NameTree(y).a)
  }

  lemma NameTreeSpells(x: char)
    ensures OrTokens(NameTree(x)) == AndTokens(NameTree(x).a) == [Ident([x])]
    ensures OrExpr(NameTree(x)) == AndExpr(NameTree(x).a) == EVar([x])
  {
    var n := Bare(PVar([x]));
    assert NotTokens(n) == [Ident([x])] && NotExpr(n) == EVar([x]);
    assert AndTokens(OneNot(n)) == [Ident([x])] && AndExpr(OneNot(n)) == EVar([x]);
  }

  lemma NameParses(lib: NumberLib, x: char)
    requires IsLetter(x)
    ensures Lex(lib, [x]) == Ok(OrTokens(NameTree(x))) && ParseText(lib, [x]) == Ok(EVar([x]))
  {
    var nothing: string := [];
    LexName(lib, x, nothing);
    assert [x] + nothing == [x] && Lex(lib, nothing) == Ok([]);
    NameTreeSpells(x);
    assert [Ident([x])] + [] == [Ident([x])];
    ParseCorrect(OrTokens(NameTree(x)), EVar([x]));
  }

  lemma OrLineParses(lib: NumberLib, x: char, y: char)
    requires IsLetter(x) && IsLetter(y)
    ensures Lex(lib, OrLine(x, y)) == Ok(OrTokens(OrLineTree(x, y)))
    ensures ParseText(lib, OrLine(x, y)) == Ok(EOr(EVar([x]), EVar([y])))
  {
    NameParses(lib, y);
    LexOrText(lib, [y]);
    LexName(lib, x, OR_TEXT + [y]);
    NameTreeSpells(x);
    NameTreeSpells(y);
    assert OrExpr(OrLineTree(x, y)) == EOr(EVar([x]), EVar([y]));
    ParseCorrect(OrTokens(OrLineTree(x, y)), EOr(EVar([x]), EVar([y])));
  }

  lemma OrLineJoins(lib: NumberLib, x: char, y: char, z: char)
    requires IsLetter(x) && IsLetter(y) && IsLetter(z)
    ensures ParseText(lib, OrLine(x, y) + (AND_TEXT + [z])) == Ok(EOr(EVar([x]), EAnd(EVar([y]), EVar([z]))))
  {
    OrLineParses(lib, x, y);
    NameParses(lib, z);
    JoinTwo(lib, OrLine(x, y), [z], OrLineTree(x, y), NameTree(z));
    NameTreeSpells(x);
    NameTreeSpells(y);
    NameTreeSpells(z);
    var n := Bare(PVar([z]));
    assert NotExpr(n) == EVar([z]);
    var last := AndThen(NameTree(y).a, n);
    assert AndExpr(last) == EAnd(EVar([y]), EVar([z]));
    assert Merge(OrLineTree(x, y), NameTree(z)) == OrThen(NameTree(x), last);
  }

  lemma ConjunctionOfTwo(lib: NumberLib, a: string, b: string, bindings: FieldBindings)
    ensures JoinLines([a, b]) == a + (AND_TEXT + b)
    ensures Conjunction(lib, [a, b], bindings)
         == Both(EvaluateText(lib, a, bindings), Both(EvaluateText(lib, b, bindings), Ok(true)))
  {
    var lines := [a, b];
    assert lines[1..] == [b] && [b][1..] == [];
    assert Conjunction(lib, [b], bindings) == Both(EvaluateText(lib, b, bindings), Ok(true));
  }

  lemma OrLineIsNotAnded(lib: NumberLib, x: char, y: char, z: char)
    requires IsLetter(x) && IsLetter(y) && IsLetter(z) && x != z
    ensures AllValid(lib, [OrLine(x, y), [z]])
    ensures var bindings: FieldBindings := map[[x] := Bool(true), [z] := Bool(false)];
      EvaluateText(lib, JoinLines([OrLine(x, y), [z]]), bindings) == Ok(true) &&
      Conjunction(lib, [OrLine(x, y), [z]], bindings) == Ok(false)
  {
    var bindings: FieldBindings := map[[x] := Bool(true), [z] := Bool(false)];
    OrLineParses(lib, x, y);
    NameParses(lib, z);
    OrLineJoins(lib, x, y, z);
    ConjunctionOfTwo(lib, OrLine(x, y), [z], bindings);
    assert [x][0] != [z][0];
    assert EvalBool(lib, EVar([x]), bindings) == Ok(true);
    assert EvalBool(lib, EVar([z]), bindings) == Ok(false);
  }

  // Lines that are no guards of their own.

  /** A line that is no guard keeps the conjunction from being true. */
  lemma {:induction false} InvalidLineIsNeverTrue(lib: NumberLib, lines: seq<string>, bindings: FieldBindings)
    requires !AllValid(lib, lines)
    ensures Conjunction(lib, lines, bindings) != Ok(true)
  {
    if Valid(lib, lines[0]) {
      var i :| 0 <= i < |lines| && !Valid(lib, lines[i]);
      assert lines[1..][i - 1] == lines[i];
      InvalidLineIsNeverTrue(lib, lines[1..], bindings);
    }
  }

  function Opened(x: char): string {
    "(" + [x]
  }

  function Closed(y: char): string {
    [y] + ")"
  }

  lemma LexParens(lib: NumberLib, rest: string)
    ensures Lex(lib, "(" + rest) == Prepend([LParen], Lex(lib, rest))
    ensures Lex(lib, ")") == Ok([RParen])
  {
    var s := "(" + rest;
    assert FirstStep(lib, s) == Push(LParen, 1) && s[1..] == rest;
    assert FirstStep(lib, ")") == Push(RParen, 1) && ")"[1..] == [] && Lex(lib, []) == Ok([]);
    assert [RParen] + [] == [RParen];
  }

  lemma HalvesLex(lib: NumberLib, x: char, y: char)
    requires IsLetter(x) && IsLetter(y)
    ensures Lex(lib, Opened(x)) == Ok([LParen, Ident([x])]) && Lex(lib, Closed(y)) == Ok([Ident([y]), RParen])
    ensures Lex(lib, Opened(x) + (AND_TEXT + Closed(y))) == Ok([LParen, Ident([x]), And, Ident([y]), RParen])
  {
    hide Lex, FirstStep;
    NameParses(lib, x);
    NameTreeSpells(x);
    LexParens(lib, [x]);
    LexName(lib, y, ")");
    LexAndText(lib, Closed(y));
    LexName(lib, x, AND_TEXT + Closed(y));
    assert [Ident([y])] + [RParen] == [Ident([y]), RParen];
    var rest := [x] + (AND_TEXT + Closed(y));
    LexParens(lib, rest);
    assert Opened(x) + (AND_TEXT + Closed(y)) == "(" + rest;
    assert [LParen] + ([Ident([x])] + ([And] + [Ident([y]), RParen])) == [LParen, Ident([x]), And, Ident([y]), RParen];
    assert [LParen] + [Ident([x])] == [LParen, Ident([x])];
  }

  /** A name at the end of the tokens or before a closing parenthesis is a disjunction of its own. */
  lemma LoneName(tokens: seq<Token>, pos: nat, x: string)
    requires pos < |tokens| && tokens[pos] == Ident(x)
    requires pos + 1 < |tokens| ==> tokens[pos + 1] == RParen
    ensures ParseOr(tokens, pos) == Ok(Parsed(EVar(x), pos + 1))
  {
    BareStep(tokens, pos, Parsed(EVar(x), pos + 1));
    LoopEnds(tokens, pos + 1, EVar(x));
  }

  lemma HalvesFail(x: string, y: string)
    ensures ParseAll([LParen, Ident(x)]) == Err(ExpectedClosing)
    ensures ParseAll([Ident(y), RParen]) == Err(TrailingToken(RParen))
  {
    var left := [LParen, Ident(x)];
    LoneName(left, 1, x);
    LoneName([Ident(y), RParen], 0, y);
    assert ParsePrimary(left, 0) == Err(ExpectedClosing);
    assert ParseCompare(left, 0) == Err(ExpectedClosing);
    assert ParseAnd(left, 0) == Err(ExpectedClosing);
  }

  lemma WholeParses(x: char, y: char)
    ensures ParseAll([LParen, Ident([x]), And, Ident([y]), RParen]) == Ok(EAnd(EVar([x]), EVar([y])))
  {
    var front, last := NameTree(x).a, Bare(PVar([y]));
    NameTreeSpells(x);
    assert NotTokens(last) == [Ident([y])] && NotExpr(last) == EVar([y]);
    var both := AndThen(front, last);
    assert AndTokens(both) == [Ident([x]), And, Ident([y])] && AndExpr(both) == EAnd(EVar([x]), EVar([y]));
    ParensSpell(OneAnd(both));
    var t := OneAnd(OneNot(Bare(Parens(OneAnd(both)))));
    assert OrTokens(OneAnd(both)) == AndTokens(both) && OrExpr(OneAnd(both)) == AndExpr(both);
    assert [LParen] + ([Ident([x]), And, Ident([y])] + [RParen]) == [LParen, Ident([x]), And, Ident([y]), RParen];
    ParseCorrect(OrTokens(t), OrExpr(t));
  }

  lemma ParensSpell(inner: OrTree)
    ensures var t := OneAnd(OneNot(Bare(Parens(inner))));
      OrTokens(t) == [LParen] + (OrTokens(inner) + [RParen]) && OrExpr(t) == OrExpr(inner)
  {
    var n := Bare(Parens(inner));
    assert NotTokens(n) == PrimaryTokens(Parens(inner)) && NotExpr(n) == PrimaryExpr(Parens(inner));
    assert AndTokens(OneNot(n)) == NotTokens(n) && AndExpr(OneNot(n)) == NotExpr(n);
  }

  /** The lines `(x` and `y)` are no guards, and yet their join is one: it is true where x and y are. */
  lemma JoinRepairsLines(lib: NumberLib, x: char, y: char)
    requires IsLetter(x) && IsLetter(y)
    ensures !Valid(lib, Opened(x)) && !Valid(lib, Closed(y))
    ensures ParseText(lib, JoinLines([Opened(x), Closed(y)])) == Ok(EAnd(EVar([x]), EVar([y])))
    ensures var bindings: FieldBindings := map[[x] := Bool(true), [y] := Bool(true)];
      EvaluateText(lib, JoinLines([Opened(x), Closed(y)]), bindings) == Ok(true) &&
      Conjunction(lib, [Opened(x), Closed(y)], bindings) == Err(ExpectedClosing)
  {
    hide Lex, ParseAll;
    var bindings: FieldBindings := map[[x] := Bool(true), [y] := Bool(true)];
    HalvesLex(lib, x, y);
    HalvesFail([x], [y]);
    WholeParses(x, y);
    ConjunctionOfTwo(lib, Opened(x), Closed(y), bindings);
    assert EvalBool(lib, EVar([x]), bindings) == Ok(true) && EvalBool(lib, EVar([y]), bindings) == Ok(true);
  }
}
