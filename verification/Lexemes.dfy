/** How guard tokens are spelled (`crates/luaml/src/guard.rs`, `tokenize`). */
module Lexemes {
  // Which texts spell which tokens, where a token ends, and that tokenizing a text is taking it apart so.

  import opened Wrappers
  import opened Values
  import opened GuardLexer

  predicate IsKeyword(word: string) {
    word == "and" || word == "or" || word == "not" || word == "true" || word == "false" || word == "nil"
  }

  predicate IsWord(text: string) {
    && text != [] && (IsLetter(text[0]) || text[0] == '_')
    && forall i | 0 <= i < |text| :: IsWordChar(text[i])
  }

  /** An optional sign, a digit, then digits and points. */
  predicate IsNumberText(text: string) {
    var digits := if text != [] && text[0] == '-' then text[1..] else text;
    digits != [] && IsDigit(digits[0]) && forall i | 0 <= i < |digits| :: IsNumberChar(digits[i])
  }

  predicate Quoted(text: string, quote: char, inner: string) {
    text == [quote] + inner + [quote] && quote !in inner
  }

  /** The text spells the token. */
  predicate Spells(lib: NumberLib, text: string, token: Token) {
    match token
    case LParen => text == "("
    case RParen => text == ")"
    case Eq => text == "=="
    case Neq => text == "~=" || text == "!="
    case Lt => text == "<"
    case Gt => text == ">"
    case Lte => text == "<="
    case Gte => text == ">="
    case And => text == "and"
    case Or => text == "or"
    case Not => text == "not"
    case Nil => text == "nil"
    case BoolLit(b) => text == if b then "true" else "false"
    case Ident(word) => text == word && IsWord(word) && !IsKeyword(word)
    case StringLit(s) => Quoted(text, '"', s) || Quoted(text, '\'', s)
    case NumberLit(x) => IsNumberText(text) && lib.parse(text) == Some(x)
  }

  /** A word, a number or a comparison sign goes on as long as it can. */
  predicate Ends(token: Token, rest: string) {
    rest == [] ||
    match token
    case Lt => rest[0] != '='
    case Gt => rest[0] != '='
    case NumberLit(_) => !IsNumberChar(rest[0])
    case And => !IsWordChar(rest[0])
    case Or => !IsWordChar(rest[0])
    case Not => !IsWordChar(rest[0])
    case Nil => !IsWordChar(rest[0])
    case BoolLit(_) => !IsWordChar(rest[0])
    case Ident(_) => !IsWordChar(rest[0])
    case _ => true
  }

  predicate IsWordToken(token: Token) {
    token.And? || token.Or? || token.Not? || token.Nil? || token.BoolLit? || token.Ident?
  }

  /** The first `n` characters of `s` spell the token, and it ends there. */
  predicate TokenAt(lib: NumberLib, s: string, token: Token, n: nat) {
    n <= |s| && Spells(lib, s[..n], token) && Ends(token, s[n..])
  }

  lemma WordTokens(lib: NumberLib, word: string, token: Token)
    requires IsWord(word)
    ensures IsWordToken(token) ==> (Spells(lib, word, token) <==> Keyword(word) == token)
    ensures IsWordToken(Keyword(word))
  {
  }

  lemma WordsBegin(lib: NumberLib, text: string, token: Token)
    requires Spells(lib, text, token)
    ensures IsWordToken(token) <==> text != [] && (IsLetter(text[0]) || text[0] == '_')
    ensures IsWordToken(token) ==> IsWord(text)
    ensures token.NumberLit? <==> text != [] && (IsDigit(text[0]) || (text[0] == '-' && |text| > 1))
    ensures token.StringLit? <==> text != [] && (text[0] == '"' || text[0] == '\'')
  {
  }

  /** A word at the front: what the lexer takes, and the only token that is there. */
  lemma WordStep(lib: NumberLib, s: string, token: Token, n: nat)
    requires s != [] && (IsLetter(s[0]) || s[0] == '_')
    ensures FirstStep(lib, s) == Push(token, n) <==> TokenAt(lib, s, token, n)
  {
    var m := Run(s, IsWordChar);
    RunProperties(s, IsWordChar);
    assert forall i | 0 <= i < m :: s[..m][i] == s[i];
    assert FirstStep(lib, s) == Push(Keyword(s[..m]), m);
    hide FirstStep, Keyword;
    WordTokens(lib, s[..m], token);
    if TokenAt(lib, s, token, n) {
      WordsBegin(lib, s[..n], token);
      assert forall i | 0 <= i < n :: s[i] == s[..n][i];
      assert n < |s| ==> s[n] == s[n..][0];
      RunIs(s, IsWordChar, n);
    }
  }

  lemma NumberStep(lib: NumberLib, s: string, token: Token, n: nat)
    requires s != [] && StartsNumber(s)
    ensures FirstStep(lib, s) == Push(token, n) <==> TokenAt(lib, s, token, n)
  {
    var m := NumberLength(s);
    assert FirstStep(lib, s) ==
      match lib.parse(s[..m])
      case None => Fail(InvalidNumber(s[..m]))
      case Some(x) => Push(NumberLit(x), m);
    hide FirstStep, NumberLength, StartsNumber, IsNumberText, IsNumberChar;
    NumberTextAt(s, if s[0] == '-' then 1 else 0, m);
    assert m < |s| ==> s[m..][0] == s[m];
    if TokenAt(lib, s, token, n) {
      FirstCharacter(s, n, lib, token);
      WordsBegin(lib, s[..n], token);
      NumberIsWhole(s, n);
    }
  }

  lemma FirstCharacter(s: string, n: nat, lib: NumberLib, token: Token)
    requires s != [] && StartsNumber(s) && TokenAt(lib, s, token, n)
    ensures n > 0 && s[..n][0] == s[0] && token.NumberLit?
  {
    WordsBegin(lib, s[..n], token);
  }

  lemma NumberIsWhole(s: string, n: nat)
    requires s != [] && StartsNumber(s) && 0 < n <= |s| && IsNumberText(s[..n]) && (n < |s| ==> !IsNumberChar(s[n]))
    ensures n == NumberLength(s)
  {
    var sign := if s[0] == '-' then 1 else 0;
    var digits := s[sign..];
    assert s[..n][0] == s[0] && s[..n][sign..] == digits[..n - sign];
    assert forall i | 0 <= i < n - sign :: digits[i] == digits[..n - sign][i];
    assert n < |s| ==> digits[n - sign] == s[n];
    RunIs(digits, IsNumberChar, n - sign);
  }

  lemma NumberTextAt(s: string, sign: nat, m: nat)
    requires s != [] && StartsNumber(s) && sign == (if s[0] == '-' then 1 else 0) && m == NumberLength(s)
    ensures IsNumberText(s[..m]) && (m < |s| ==> !IsNumberChar(s[m]))
  {
    var digits := s[sign..];
    RunProperties(digits, IsNumberChar);
    RunStarts(digits, IsNumberChar);
    assert s[..m][sign..] == digits[..m - sign];
    assert m < |s| ==> s[m] == digits[m - sign];
  }

  lemma RunStarts(s: string, p: char -> bool)
    requires s != [] && p(s[0])
    ensures Run(s, p) > 0
  {
  }

  lemma QuoteStep(lib: NumberLib, s: string, token: Token, n: nat)
    requires s != [] && (s[0] == '"' || s[0] == '\'')
    ensures FirstStep(lib, s) == Push(token, n) <==> TokenAt(lib, s, token, n)
  {
    QuotedStep(lib, s);
    hide FirstStep;
    var m := Run(s[1..], Other(s[0]));
    RunProperties(s[1..], Other(s[0]));
    if 1 + m < |s| {
      ClosingQuote(s, m);
    }
    if TokenAt(lib, s, token, n) {
      hide IsNumberText, IsWord;
      assert n > 0 && s[..n][0] == s[0];
      WordsBegin(lib, s[..n], token);
      QuoteIsFirst(s, n, token.text);
    }
  }

  lemma ClosingQuote(s: string, m: nat)
    requires 1 + m < |s| && s[1..][m] == s[0] && forall i | 0 <= i < m :: s[1..][i] != s[0]
    ensures Quoted(s[..m + 2], s[0], s[1..1 + m])
  {
    var inner := s[1..1 + m];
    assert forall i | 0 <= i < m :: inner[i] == s[1..][i];
    assert s[..m + 2] == [s[0]] + inner + [s[0]];
  }

  lemma QuoteIsFirst(s: string, n: nat, inner: string)
    requires 0 < n <= |s| && Quoted(s[..n], s[0], inner)
    ensures n == |inner| + 2 && Run(s[1..], Other(s[0])) == |inner| && s[1..1 + |inner|] == inner
  {
    var text, p := s[..n], Other(s[0]);
    assert n == |inner| + 2;
    forall i | 0 <= i < |inner| ensures s[1..][i] == inner[i] && p(s[1..][i]) {
      assert text[i + 1] == inner[i] && inner[i] in inner;
    }
    assert text[n - 1] == s[0] && s[1..][|inner|] == s[n - 1];
    RunIs(s[1..], p, |inner|);
  }

  lemma SignStep(lib: NumberLib, s: string, token: Token, n: nat)
    requires s != [] && !StartsNumber(s)
    requires !IsLetter(s[0]) && s[0] != '_' && s[0] != '"' && s[0] != '\''
    ensures FirstStep(lib, s) == Push(token, n) <==> TokenAt(lib, s, token, n)
  {
    hide Run, NumberLength;
    if n <= |s| {
      assert n == 1 ==> s[..n] == [s[0]];
      assert n == 2 ==> s[..n] == [s[0], s[1]];
      assert n < |s| ==> s[n..][0] == s[n];
    }
    if TokenAt(lib, s, token, n) { WordsBegin(lib, s[..n], token); }
  }

  /** The lexer pushes a token exactly when the text starts with its spelling and the token ends there. */
  lemma FirstTokenIff(lib: NumberLib, s: string, token: Token, n: nat)
    requires s != []
    ensures FirstStep(lib, s) == Push(token, n) <==> TokenAt(lib, s, token, n)
  {
    hide FirstStep;
    if IsLetter(s[0]) || s[0] == '_' { WordStep(lib, s, token, n); }
    else if s[0] == '"' || s[0] == '\'' { QuoteStep(lib, s, token, n); }
    else if StartsNumber(s) { NumberStep(lib, s, token, n); }
    else { SignStep(lib, s, token, n); }
  }

  /** The text is white space and the spellings of these tokens, in order, each as long as it can be. */
  ghost predicate Tokenized(lib: NumberLib, s: string, tokens: seq<Token>)
    decreases |s|
  {
    if s == [] then tokens == []
    else if IsSpace(s[0]) then Tokenized(lib, s[1..], tokens)
    else
      && tokens != []
      && exists n: nat | 0 < n <= |s| ::
          TokenAt(lib, s, tokens[0], n) && Tokenized(lib, s[n..], tokens[1..])
  }

  /** Tokenizing a text gives exactly the tokens that the text spells. */
  lemma {:induction false} LexIff(lib: NumberLib, s: string, tokens: seq<Token>)
    ensures Lex(lib, s) == Ok(tokens) <==> Tokenized(lib, s, tokens)
    decreases |s|
  {
    if s != [] {
      if IsSpace(s[0]) {
        assert FirstStep(lib, s) == Skip(1);
        LexIff(lib, s[1..], tokens);
      } else {
        NoSkip(lib, s);
        var step := FirstStep(lib, s);
        hide FirstStep, TokenAt;
        if Lex(lib, s) == Ok(tokens) {
          LexIff(lib, s[step.n..], tokens[1..]);
          FirstTokenIff(lib, s, tokens[0], step.n);
        }
        if Tokenized(lib, s, tokens) {
          var n: nat :| 0 < n <= |s| && TokenAt(lib, s, tokens[0], n) && Tokenized(lib, s[n..], tokens[1..]);
          FirstTokenIff(lib, s, tokens[0], n);
          LexIff(lib, s[n..], tokens[1..]);
          assert [tokens[0]] + tokens[1..] == tokens;
        }
      }
    }
  }

  lemma NoSkip(lib: NumberLib, s: string)
    requires s != [] && !IsSpace(s[0])
    ensures !FirstStep(lib, s).Skip?
  {
  }
}
