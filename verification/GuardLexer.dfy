/** The tokens of guard expressions (`crates/luaml/src/guard.rs`, `tokenize`). */
module GuardLexer {
  import opened Wrappers
  import opened Values

  datatype Token =
    | Ident(word: string)
    | StringLit(text: string)
    | NumberLit(number: Float)
    | BoolLit(truth: bool)
    | Eq | Neq | Lt | Gt | Lte | Gte
    | And | Or | Not | Nil
    | LParen | RParen

  datatype GuardError =
    | UnterminatedString
    | InvalidNumber(text: string)
    | UnexpectedChar(c: char)
    | UnexpectedToken(token: Token)
    | ExpectedClosing
    | UnexpectedEnd
    | TrailingToken(token: Token)
    | ComplexComparison

  /** Number conversions of the host library: `str::parse::<f64>` and `as f64`. */
  datatype NumberLib = NumberLib(parse: string -> Option<Float>, fromInt: i64 -> Float)

  predicate IsSpace(c: char) { c == ' ' || c == '\t' || c == '\r' || c == '\n' }

  predicate IsNumberChar(c: char) { IsDigit(c) || c == '.' }

  predicate IsWordChar(c: char) { IsLetter(c) || IsDigit(c) || c == '_' }

  /** Length of the longest prefix whose characters all satisfy `p`. */
  function Run(s: string, p: char -> bool): (n: nat)
    ensures n <= |s|
  {
    if s == [] || !p(s[0]) then 0 else 1 + Run(s[1..], p)
  }

  lemma {:induction false} RunProperties(s: string, p: char -> bool)
    ensures forall i | 0 <= i < Run(s, p) :: p(s[i])
    ensures Run(s, p) < |s| ==> !p(s[Run(s, p)])
  {
    if s != [] && p(s[0]) {
      RunProperties(s[1..], p);
    }
  }

  /** The one length that `Run` can have. */
  lemma {:induction false} RunIs(s: string, p: char -> bool, n: nat)
    requires n <= |s| && (forall i | 0 <= i < n :: p(s[i])) && (n < |s| ==> !p(s[n]))
    ensures Run(s, p) == n
  {
    if n > 0 {
      RunIs(s[1..], p, n - 1);
    }
  }

  /** The characters a string literal opened by `quote` may hold. */
  function Other(quote: char): char -> bool {
    c => c != quote
  }

  function Keyword(word: string): Token {
    if word == "and" then And
    else if word == "or" then Or
    else if word == "not" then Not
    else if word == "true" then BoolLit(true)
    else if word == "false" then BoolLit(false)
    else if word == "nil" then Nil
    else Ident(word)
  }

  /** What one turn of the tokenizer's loop does: how many characters it takes and what it pushes. */
  datatype Step = Skip(n: nat) | Push(token: Token, n: nat) | Fail(error: GuardError)

  predicate StartsNumber(s: string)
    requires s != []
  {
    IsDigit(s[0]) || (s[0] == '-' && |s| > 1 && IsDigit(s[1]))
  }

  /** Characters of the number literal at the front of `s`. */
  function NumberLength(s: string): nat
    requires s != [] && StartsNumber(s)
    ensures 0 < NumberLength(s) <= |s|
  {
    if s[0] == '-' then 1 + Run(s[1..], IsNumberChar) else Run(s, IsNumberChar)
  }

  function FirstStep(lib: NumberLib, s: string): (step: Step)
    requires s != []
    ensures !step.Fail? ==> 0 < step.n <= |s|
  {
    var c := s[0];
    var thenEq := |s| > 1 && s[1] == '=';
    if IsSpace(c) then Skip(1)
    else if c == '(' then Push(LParen, 1)
    else if c == ')' then Push(RParen, 1)
    else if c == '=' && thenEq then Push(Eq, 2)
    else if c == '~' && thenEq then Push(Neq, 2)
    else if c == '!' && thenEq then Push(Neq, 2)
    else if c == '<' && thenEq then Push(Lte, 2)
    else if c == '>' && thenEq then Push(Gte, 2)
    else if c == '<' then Push(Lt, 1)
    else if c == '>' then Push(Gt, 1)
    else if c == '"' || c == '\'' then
      var n := Run(s[1..], Other(c));
      if 1 + n == |s| then Fail(UnterminatedString) else Push(StringLit(s[1..1 + n]), n + 2)
    else if StartsNumber(s) then
      var n := NumberLength(s);
      match lib.parse(s[..n])
      case None => Fail(InvalidNumber(s[..n]))
      case Some(x) => Push(NumberLit(x), n)
    else if IsLetter(c) || c == '_' then
      var n := Run(s, IsWordChar);
      Push(Keyword(s[..n]), n)
    else Fail(UnexpectedChar(c))
  }

  type Tokens = Result<seq<Token>, GuardError>

  function Prepend(front: seq<Token>, rest: Tokens): Tokens {
    if rest.Ok? then Ok(front + rest.value) else rest
  }

  lemma PrependNothing(rest: Tokens)
    ensures Prepend([], rest) == rest
  {
    if rest.Ok? { assert [] + rest.value == rest.value; }
  }

  /** The tokens of a text. */
  function Lex(lib: NumberLib, s: string): Tokens
    decreases |s|
  {
    if s == [] then Ok([]) else
      match FirstStep(lib, s)
      case Skip(n) => Lex(lib, s[n..])
      case Push(token, n) => Prepend([token], Lex(lib, s[n..]))
      case Fail(error) => Err(error)
  }

  /** What the tokens before position `i` and the characters from there on come to after one step. */
  lemma UnfoldLex(lib: NumberLib, chars: string, i: nat, tokens: seq<Token>, step: Step)
    requires i < |chars| && step == FirstStep(lib, chars[i..])
    ensures Prepend(tokens, Lex(lib, chars[i..])) ==
      if step.Fail? then Err(step.error)
      else Prepend(if step.Push? then tokens + [step.token] else tokens, Lex(lib, chars[i + step.n..]))
  {
    if !step.Fail? {
      assert chars[i..][step.n..] == chars[i + step.n..];
      if step.Push? {
        PrependTwice(tokens, [step.token], Lex(lib, chars[i + step.n..]));
      }
    }
  }

  /** Advances `i` over the characters that satisfy `p`. */
  method SkipWhile(chars: string, start: nat, p: char -> bool) returns (i: nat)
    requires start <= |chars|
    ensures start <= i <= |chars| && i - start == Run(chars[start..], p)
  {
    i := start;
    while i < |chars| && p(chars[i])
      invariant start <= i <= |chars|
      invariant forall k | start <= k < i :: p(chars[k])
    {
      i := i + 1;
    }
    RunIs(chars[start..], p, i - start);
  }

  method TakeString(lib: NumberLib, chars: string, start: nat) returns (step: Step)
    requires start < |chars| && (chars[start] == '"' || chars[start] == '\'')
    ensures step == FirstStep(lib, chars[start..])
  {
    var i := SkipWhile(chars, start + 1, Other(chars[start]));
    ghost var rest := chars[start..];
    assert rest[0] == chars[start] && rest[1..] == chars[start + 1..];
    if i >= |chars| {
      return Fail(UnterminatedString);
    }
    assert rest[1..i - start] == chars[start + 1..i];
    return Push(StringLit(chars[start + 1..i]), i + 1 - start);
  }

  method TakeNumber(lib: NumberLib, chars: string, start: nat) returns (step: Step)
    requires start < |chars| && StartsNumber(chars[start..])
    ensures step == FirstStep(lib, chars[start..])
  {
    var i := start;
    if chars[start] == '-' {
      i := i + 1;
    }
    ghost var rest := chars[start..];
    assert rest[i - start..] == chars[i..];
    i := SkipWhile(chars, i, IsNumberChar);
    assert i - start == NumberLength(rest);
    assert rest[..i - start] == chars[start..i];
    match lib.parse(chars[start..i])
    case None => return Fail(InvalidNumber(chars[start..i]));
    case Some(n) => return Push(NumberLit(n), i - start);
  }

  method TakeWord(lib: NumberLib, chars: string, start: nat) returns (step: Step)
    requires start < |chars| && (IsLetter(chars[start]) || chars[start] == '_')
    ensures step == FirstStep(lib, chars[start..])
  {
    var i := SkipWhile(chars, start, IsWordChar);
    assert chars[start..][..i - start] == chars[start..i];
    return Push(Keyword(chars[start..i]), i - start);
  }

  /** One turn of the tokenizer at position `i`. */
  method NextStep(lib: NumberLib, chars: string, i: nat) returns (step: Step)
    requires i < |chars|
    ensures step == FirstStep(lib, chars[i..])
  {
    var c := chars[i];
    ghost var rest := chars[i..];
    assert rest[0] == c && (|rest| > 1 ==> rest[1] == chars[i + 1]);
    var thenEq := i + 1 < |chars| && chars[i + 1] == '=';
    if IsSpace(c) {
      step := Skip(1);
    } else if c == '(' {
      step := Push(LParen, 1);
    } else if c == ')' {
      step := Push(RParen, 1);
    } else if c == '=' && thenEq {
      step := Push(Eq, 2);
    } else if (c == '~' || c == '!') && thenEq {
      step := Push(Neq, 2);
    } else if c == '<' {
      step := if thenEq then Push(Lte, 2) else Push(Lt, 1);
    } else if c == '>' {
      step := if thenEq then Push(Gte, 2) else Push(Gt, 1);
    } else if c == '"' || c == '\'' {
      step := TakeString(lib, chars, i);
    } else if IsDigit(c) || (c == '-' && i + 1 < |chars| && IsDigit(chars[i + 1])) {
      step := TakeNumber(lib, chars, i);
    } else if IsLetter(c) || c == '_' {
      step := TakeWord(lib, chars, i);
    } else {
      step := Fail(UnexpectedChar(c));
    }
  }

  lemma LexNothing(lib: NumberLib, s: string)
    requires |s| == 0
    ensures Lex(lib, s) == Ok([])
  {
  }

  method Tokenize(lib: NumberLib, chars: string) returns (result: Tokens)
    ensures result == Lex(lib, chars)
  {
    hide Lex, FirstStep;
    var tokens: seq<Token> := [];
    var i := 0;
    assert chars[0..] == chars;
    PrependNothing(Lex(lib, chars));
    while i < |chars|
      invariant 0 <= i <= |chars|
      invariant Prepend(tokens, Lex(lib, chars[i..])) == Lex(lib, chars)
    {
      var step := NextStep(lib, chars, i);
      UnfoldLex(lib, chars, i, tokens, step);
      if step.Fail? {
        return Err(step.error);
      }
      if step.Push? {
        tokens := tokens + [step.token];
      }
      i := i + step.n;
    }
    LexNothing(lib, chars[i..]);
    assert tokens + [] == tokens;
    return Ok(tokens);
  }

  /** A text that tokenizes alone keeps its tokens when white space and more text follow. */
  lemma {:induction false} LexAppend(lib: NumberLib, a: string, b: string)
    requires Lex(lib, a).Ok?
    requires b != [] ==> IsSpace(b[0])
    ensures Lex(lib, a + b) == Prepend(Lex(lib, a).value, Lex(lib, b))
    decreases |a|
  {
    if a == [] {
      assert a + b == b;
      var rest := Lex(lib, b);
      assert rest.Ok? ==> [] + rest.value == rest.value;
    } else {
      hide FirstStep;
      FirstStepAppend(lib, a, b);
      var step := FirstStep(lib, a);
      assert (a + b)[step.n..] == a[step.n..] + b;
      LexAppend(lib, a[step.n..], b);
      if step.Push? {
        PrependTwice([step.token], Lex(lib, a[step.n..]).value, Lex(lib, b));
      }
    }
  }

  lemma PrependTwice(a: seq<Token>, b: seq<Token>, rest: Tokens)
    ensures Prepend(a, Prepend(b, rest)) == Prepend(a + b, rest)
  {
    if rest.Ok? {
      assert a + (b + rest.value) == (a + b) + rest.value;
    }
  }

  /** A run that stops before white space stops there too when it is what follows. */
  lemma RunAppend(a: string, b: string, p: char -> bool)
    requires Run(a, p) < |a| || b == [] || !p(b[0])
    ensures Run(a + b, p) == Run(a, p)
  {
    RunProperties(a, p);
    RunIs(a + b, p, Run(a, p));
  }

  lemma QuotedStep(lib: NumberLib, s: string)
    requires s != [] && (s[0] == '"' || s[0] == '\'')
    ensures var n := Run(s[1..], Other(s[0]));
      FirstStep(lib, s) == if 1 + n == |s| then Fail(UnterminatedString) else Push(StringLit(s[1..1 + n]), n + 2)
  {
    hide Run;
  }

  lemma QuotedAppend(lib: NumberLib, a: string, b: string)
    requires a != [] && !FirstStep(lib, a).Fail? && (a[0] == '"' || a[0] == '\'')
    ensures FirstStep(lib, a + b) == FirstStep(lib, a)
  {
    hide Run, FirstStep;
    QuotedStep(lib, a);
    QuotedStep(lib, a + b);
    var n := Run(a[1..], Other(a[0]));
    assert (a + b)[1..] == a[1..] + b;
    RunAppend(a[1..], b, Other(a[0]));
    assert (a + b)[1..1 + n] == a[1..1 + n];
  }

  lemma NumberAppend(lib: NumberLib, a: string, b: string)
    requires a != [] && StartsNumber(a)
    requires b != [] ==> IsSpace(b[0])
    ensures FirstStep(lib, a + b) == FirstStep(lib, a)
  {
    if a[0] == '-' {
      assert (a + b)[1..] == a[1..] + b;
      RunAppend(a[1..], b, IsNumberChar);
    } else {
      RunAppend(a, b, IsNumberChar);
    }
    assert NumberLength(a + b) == NumberLength(a);
    assert (a + b)[..NumberLength(a)] == a[..NumberLength(a)];
  }

  lemma WordAppend(lib: NumberLib, a: string, b: string)
    requires a != [] && (IsLetter(a[0]) || a[0] == '_')
    requires b != [] ==> IsSpace(b[0])
    ensures FirstStep(lib, a + b) == FirstStep(lib, a)
  {
    RunAppend(a, b, IsWordChar);
    assert (a + b)[..Run(a, IsWordChar)] == a[..Run(a, IsWordChar)];
  }

  /** Each token ends before white space, whatever comes after it. */
  lemma FirstStepAppend(lib: NumberLib, a: string, b: string)
    requires a != [] && !FirstStep(lib, a).Fail?
    requires b != [] ==> IsSpace(b[0])
    ensures FirstStep(lib, a + b) == FirstStep(lib, a)
  {
    if a[0] == '"' || a[0] == '\'' {
      QuotedAppend(lib, a, b);
    } else if StartsNumber(a) {
      NumberAppend(lib, a, b);
    } else if IsLetter(a[0]) || a[0] == '_' {
      WordAppend(lib, a, b);
    }
  }
}
