/** What guards mean (`crates/luaml/src/guard.rs`). */
module GuardMeaning {
  // The values of operands, the six comparisons and the truth of expressions, said without the evaluator.

  import opened Wrappers
  import opened Values
  import KeyOrder
  import opened GuardLexer
  import opened GuardGrammar
  import GuardParser
  import Guards

  /** The operands that may be compared. */
  predicate Simple(e: Expr) {
    e.EBool? || e.ENumber? || e.EString? || e.ENil? || e.EVar?
  }

  /** What a variable stands for; an unbound one stands for nothing. */
  function Bound(x: string, bindings: FieldBindings): FieldValue {
    if x in bindings then bindings[x] else Null
  }

  /** The number an operand stands for: a number, or a text that reads as one. */
  function NumberIn(lib: NumberLib, e: Expr, bindings: FieldBindings): Option<Float> {
    match e
    case ENumber(n) => Some(n)
    case EString(s) => lib.parse(s)
    case EVar(x) =>
      (match Bound(x, bindings)
       case Number(n) => Some(lib.fromInt(n))
       case Flt(f) => Some(f)
       case Str(s) => lib.parse(s)
       case Enum(s) => lib.parse(s)
       case _ => None)
    case _ => None
  }

  /** The text an operand stands for: a string, or the name of an enum. */
  function TextIn(e: Expr, bindings: FieldBindings): Option<string> {
    match e
    case EString(s) => Some(s)
    case EVar(x) =>
      (match Bound(x, bindings)
       case Str(s) => Some(s)
       case Enum(s) => Some(s)
       case _ => None)
    case _ => None
  }

  function TruthIn(e: Expr, bindings: FieldBindings): Option<bool> {
    match e
    case EBool(b) => Some(b)
    case EVar(x) => if Bound(x, bindings).Bool? then Some(Bound(x, bindings).b) else None
    case _ => None
  }

  /** `nil`, an unbound variable, null, and also a list or a map. */
  predicate NothingIn(e: Expr, bindings: FieldBindings) {
    e.ENil? || (e.EVar? && var v := Bound(e.word, bindings); v.Null? || v.List? || v.Map?)
  }

  predicate BothNumbers(lib: NumberLib, l: Expr, r: Expr, bindings: FieldBindings) {
    NumberIn(lib, l, bindings).Some? && NumberIn(lib, r, bindings).Some?
  }

  predicate BothTexts(l: Expr, r: Expr, bindings: FieldBindings) {
    TextIn(l, bindings).Some? && TextIn(r, bindings).Some?
  }

  predicate SameNumber(x: Float, y: Float) {
    !x.IsNaN() && !y.IsNaN() && x.Key() == y.Key()
  }

  predicate LessNumber(x: Float, y: Float) {
    !x.IsNaN() && !y.IsNaN() && x.Key() < y.Key()
  }

  /** Texts are equal as texts; a number and a text are equal if the text reads as that number. */
  predicate Same(lib: NumberLib, l: Expr, r: Expr, bindings: FieldBindings) {
    if BothTexts(l, r, bindings) then TextIn(l, bindings) == TextIn(r, bindings)
    else if BothNumbers(lib, l, r, bindings) then
      SameNumber(NumberIn(lib, l, bindings).value, NumberIn(lib, r, bindings).value)
    else
      || (TruthIn(l, bindings).Some? && TruthIn(l, bindings) == TruthIn(r, bindings))
      || (NothingIn(l, bindings) && NothingIn(r, bindings))
  }

  /** Texts that both read as numbers are ordered as numbers, other texts by their characters. */
  predicate Below(lib: NumberLib, l: Expr, r: Expr, bindings: FieldBindings) {
    if BothNumbers(lib, l, r, bindings) then
      LessNumber(NumberIn(lib, l, bindings).value, NumberIn(lib, r, bindings).value)
    else
      BothTexts(l, r, bindings) && KeyOrder.StrLt(TextIn(l, bindings).value, TextIn(r, bindings).value)
  }

  /** Below or at the same place; unlike equality this takes texts that read as the same number together. */
  predicate AtMost(lib: NumberLib, l: Expr, r: Expr, bindings: FieldBindings) {
    || Below(lib, l, r, bindings)
    || if BothNumbers(lib, l, r, bindings) then
         SameNumber(NumberIn(lib, l, bindings).value, NumberIn(lib, r, bindings).value)
       else BothTexts(l, r, bindings) && TextIn(l, bindings) == TextIn(r, bindings)
  }

  /** The six operators on simple operands; any other operand is an error. */
  lemma ComparisonsMean(lib: NumberLib, l: Expr, r: Expr, bindings: FieldBindings)
    ensures Simple(l) && Simple(r) ==>
      && Guards.EvalBool(lib, ECompare(l, OpEq, r), bindings) == Ok(Same(lib, l, r, bindings))
      && Guards.EvalBool(lib, ECompare(l, OpNeq, r), bindings) == Ok(!Same(lib, l, r, bindings))
      && Guards.EvalBool(lib, ECompare(l, OpLt, r), bindings) == Ok(Below(lib, l, r, bindings))
      && Guards.EvalBool(lib, ECompare(l, OpGt, r), bindings) == Ok(Below(lib, r, l, bindings))
      && Guards.EvalBool(lib, ECompare(l, OpLte, r), bindings) == Ok(AtMost(lib, l, r, bindings))
      && Guards.EvalBool(lib, ECompare(l, OpGte, r), bindings) == Ok(AtMost(lib, r, l, bindings))
    ensures !Simple(l) || !Simple(r) ==>
      forall op :: Guards.EvalBool(lib, ECompare(l, op, r), bindings) == Err(ComplexComparison)
  {
    if Simple(l) && Simple(r) {
      hide Guards.GuardEq, Guards.GuardCmp, Same, Below, AtMost;
      OperandMeans(lib, l, bindings);
      OperandMeans(lib, r, bindings);
      var a := Guards.ResolveValue(lib, l, bindings).value;
      var b := Guards.ResolveValue(lib, r, bindings).value;
      EqualityMeans(lib, l, r, bindings, a, b);
      OrderMeans(lib, l, r, bindings, a, b);
    }
  }

  /** The evaluator's value `v` is what the operand stands for. */
  ghost predicate Represents(lib: NumberLib, e: Expr, bindings: FieldBindings, v: Guards.GuardValue) {
    && Guards.AsF64(lib, v) == NumberIn(lib, e, bindings)
    && TextIn(e, bindings) == (if v.GString? then Some(v.text) else None)
    && TruthIn(e, bindings) == (if v.GBool? then Some(v.truth) else None)
    && (v.GNull? <==> NothingIn(e, bindings))
  }

  lemma EqualityMeans(lib: NumberLib, l: Expr, r: Expr, bindings: FieldBindings,
      a: Guards.GuardValue, b: Guards.GuardValue)
    requires Represents(lib, l, bindings, a) && Represents(lib, r, bindings, b)
    ensures Guards.GuardEq(lib, a, b) == Same(lib, l, r, bindings)
  {
    hide NumberIn, TextIn, TruthIn, NothingIn;
  }

  lemma OrderMeans(lib: NumberLib, l: Expr, r: Expr, bindings: FieldBindings,
      a: Guards.GuardValue, b: Guards.GuardValue)
    requires Represents(lib, l, bindings, a) && Represents(lib, r, bindings, b)
    ensures var cmp := Guards.GuardCmp(lib, a, b);
      && (cmp == Some(Less) <==> Below(lib, l, r, bindings))
      && (cmp == Some(Greater) <==> Below(lib, r, l, bindings))
      && (cmp.Some? && cmp != Some(Greater) <==> AtMost(lib, l, r, bindings))
      && (cmp.Some? && cmp != Some(Less) <==> AtMost(lib, r, l, bindings))
  {
    hide NumberIn, TextIn, TruthIn, NothingIn, Guards.StrCmp, Guards.GuardCmp, Guards.AsF64, Below, AtMost,
      LessNumber, SameNumber, KeyOrder.StrLt;
    NumbersBelow(lib, l, r, bindings);
    NumbersBelow(lib, r, l, bindings);
    TextsBelow(lib, l, r, bindings);
    TextsBelow(lib, r, l, bindings);
    if BothNumbers(lib, l, r, bindings) {
      var x, y := NumberIn(lib, l, bindings).value, NumberIn(lib, r, bindings).value;
      CmpNumbers(lib, a, b, x, y);
      NumbersCompare(x, y);
    } else {
      CmpTexts(lib, a, b);
      if a.GString? && b.GString? { TextsCompare(a, b); }
    }
  }

  lemma NumbersBelow(lib: NumberLib, l: Expr, r: Expr, bindings: FieldBindings)
    ensures BothNumbers(lib, l, r, bindings) ==>
      var x, y := NumberIn(lib, l, bindings).value, NumberIn(lib, r, bindings).value;
      && (Below(lib, l, r, bindings) <==> LessNumber(x, y))
      && (AtMost(lib, l, r, bindings) <==> LessNumber(x, y) || SameNumber(x, y))
  {
    hide NumberIn, TextIn, KeyOrder.StrLt, LessNumber, SameNumber;
  }

  lemma TextsBelow(lib: NumberLib, l: Expr, r: Expr, bindings: FieldBindings)
    ensures !BothNumbers(lib, l, r, bindings) && !BothTexts(l, r, bindings) ==>
      !Below(lib, l, r, bindings) && !AtMost(lib, l, r, bindings)
    ensures !BothNumbers(lib, l, r, bindings) && BothTexts(l, r, bindings) ==>
      var s, t := TextIn(l, bindings).value, TextIn(r, bindings).value;
      && (Below(lib, l, r, bindings) <==> KeyOrder.StrLt(s, t))
      && (AtMost(lib, l, r, bindings) <==> KeyOrder.StrLt(s, t) || s == t)
  {
    hide NumberIn, TextIn, KeyOrder.StrLt, LessNumber, SameNumber;
  }

  lemma CmpNumbers(lib: NumberLib, a: Guards.GuardValue, b: Guards.GuardValue, x: Float, y: Float)
    requires Guards.AsF64(lib, a) == Some(x) && Guards.AsF64(lib, b) == Some(y)
    ensures Guards.GuardCmp(lib, a, b) == x.PartialCmp(y)
  {
  }

  lemma CmpTexts(lib: NumberLib, a: Guards.GuardValue, b: Guards.GuardValue)
    requires Guards.AsF64(lib, a).None? || Guards.AsF64(lib, b).None?
    ensures Guards.GuardCmp(lib, a, b) ==
      if a.GString? && b.GString? then Some(Guards.StrCmp(a.text, b.text)) else None
  {
  }

  lemma NumbersCompare(x: Float, y: Float)
    ensures x.PartialCmp(y) == Some(Less) <==> LessNumber(x, y)
    ensures x.PartialCmp(y) == Some(Greater) <==> LessNumber(y, x)
    ensures x.PartialCmp(y) == Some(Equal) <==> SameNumber(x, y)
    ensures SameNumber(x, y) <==> SameNumber(y, x)
  {
  }

  lemma OperandMeans(lib: NumberLib, e: Expr, bindings: FieldBindings)
    requires Simple(e)
    ensures var v := Guards.ResolveValue(lib, e, bindings);
      v.Ok? && Represents(lib, e, bindings, v.value)
  {
  }

  lemma TextsCompare(a: Guards.GuardValue, b: Guards.GuardValue)
    requires a.GString? && b.GString?
    ensures Guards.StrCmp(a.text, b.text) == Less <==> KeyOrder.StrLt(a.text, b.text)
    ensures Guards.StrCmp(a.text, b.text) == Equal <==> a.text == b.text
    ensures Guards.StrCmp(a.text, b.text) == Greater <==> KeyOrder.StrLt(b.text, a.text)
  {
    KeyOrder.StrLeTotal(a.text, b.text);
    if KeyOrder.StrLe(a.text, b.text) && KeyOrder.StrLe(b.text, a.text) {
      KeyOrder.StrLeAntisymmetric(a.text, b.text);
    }
  }

  // Truth.

  predicate IsZero(f: Float) {
    f.bits == 0 || f.bits == SIGN_BIT
  }

  /** Nothing, false, zero and the empty string are falsy; everything else is truthy, NaN and enums included. */
  predicate Falsy(v: FieldValue) {
    || v == Null || v == Bool(false) || v == Number(0) || v == Str("")
    || (v.Flt? && IsZero(v.f))
  }

  predicate Compares(lib: NumberLib, l: Expr, op: CmpOp, r: Expr, bindings: FieldBindings) {
    match op
    case OpEq => Same(lib, l, r, bindings)
    case OpNeq => !Same(lib, l, r, bindings)
    case OpLt => Below(lib, l, r, bindings)
    case OpGt => Below(lib, r, l, bindings)
    case OpLte => AtMost(lib, l, r, bindings)
    case OpGte => AtMost(lib, r, l, bindings)
  }

  /** The expression holds. */
  predicate True(lib: NumberLib, e: Expr, bindings: FieldBindings) {
    match e
    case EBool(b) => b
    case ENumber(n) => !IsZero(n)
    case EString(s) => s != ""
    case ENil => false
    case EVar(x) => !Falsy(Bound(x, bindings))
    case ENot(i) => False(lib, i, bindings)
    case EAnd(l, r) => True(lib, l, bindings) && True(lib, r, bindings)
    case EOr(l, r) => True(lib, l, bindings) || (False(lib, l, bindings) && True(lib, r, bindings))
    case ECompare(l, op, r) => Simple(l) && Simple(r) && Compares(lib, l, op, r, bindings)
  }

  /** The expression fails to hold, without an error. */
  predicate False(lib: NumberLib, e: Expr, bindings: FieldBindings) {
    match e
    case EBool(b) => !b
    case ENumber(n) => IsZero(n)
    case EString(s) => s == ""
    case ENil => true
    case EVar(x) => Falsy(Bound(x, bindings))
    case ENot(i) => True(lib, i, bindings)
    case EAnd(l, r) => False(lib, l, bindings) || (True(lib, l, bindings) && False(lib, r, bindings))
    case EOr(l, r) => False(lib, l, bindings) && False(lib, r, bindings)
    case ECompare(l, op, r) => Simple(l) && Simple(r) && !Compares(lib, l, op, r, bindings)
  }

  lemma ZeroIff(f: Float)
    ensures f.IeeeEq(Float(0)) <==> IsZero(f)
  {
  }

  /** Evaluation tells truth from falsehood; what is neither is an operand too complex to compare. */
  lemma {:induction false} TruthMeans(lib: NumberLib, e: Expr, bindings: FieldBindings)
    ensures Guards.EvalBool(lib, e, bindings) ==
      if True(lib, e, bindings) then Ok(true)
      else if False(lib, e, bindings) then Ok(false)
      else Err(ComplexComparison)
  {
    match e {
      case ENumber(n) => ZeroIff(n);
      case EVar(x) => if Bound(x, bindings).Flt? { ZeroIff(Bound(x, bindings).f); }
      case ENot(i) =>
        TruthMeans(lib, i, bindings);
        NotBoth(lib, i, bindings);
      case EAnd(l, r) =>
        TruthMeans(lib, l, bindings);
        TruthMeans(lib, r, bindings);
        NotBoth(lib, l, bindings);
      case EOr(l, r) =>
        TruthMeans(lib, l, bindings);
        TruthMeans(lib, r, bindings);
        NotBoth(lib, l, bindings);
      case ECompare(l, op, r) =>
        ComparisonsMean(lib, l, r, bindings);
      case _ =>
    }
  }

  lemma {:induction false} NotBoth(lib: NumberLib, e: Expr, bindings: FieldBindings)
    ensures !(True(lib, e, bindings) && False(lib, e, bindings))
  {
    match e {
      case ENot(i) => NotBoth(lib, i, bindings);
      case EAnd(l, r) =>
        NotBoth(lib, l, bindings);
        NotBoth(lib, r, bindings);
      case EOr(l, r) =>
        NotBoth(lib, l, bindings);
        NotBoth(lib, r, bindings);
      case _ =>
    }
  }

  ghost predicate Spells(lib: NumberLib, text: string, t: OrTree) {
    Lex(lib, text) == Ok(OrTokens(t))
  }

  /** A guard holds exactly when its text is spelled by a derivation whose expression is true. */
  lemma GuardHoldsIff(lib: NumberLib, text: string, bindings: FieldBindings)
    ensures Guards.EvaluateText(lib, text, bindings) == Ok(true) <==>
      exists t :: Spells(lib, text, t) && True(lib, OrExpr(t), bindings)
  {
    hide True, Guards.EvalBool, Lex, GuardParser.ParseAll;
    if t :| Spells(lib, text, t) && True(lib, OrExpr(t), bindings) {
      GuardParser.ParseCorrect(OrTokens(t), OrExpr(t));
      TruthMeans(lib, OrExpr(t), bindings);
    }
    if Guards.EvaluateText(lib, text, bindings) == Ok(true) {
      var tokens, e := Lex(lib, text).value, Guards.ParseText(lib, text).value;
      GuardParser.ParseCorrect(tokens, e);
      var t: OrTree :| OrTokens(t) == tokens && OrExpr(t) == e;
      TruthMeans(lib, e, bindings);
      assert Spells(lib, text, t) && True(lib, OrExpr(t), bindings);
    }
  }
}
