/** Which texts are which patterns (`crates/luaml/src/pattern.rs`). */
module PatternGrammar {
  // The spellings of a pattern, and the theorem that the parser reads exactly these.

  import opened Wrappers
  import opened Values
  import opened Patterns
  import opened PatternParser
  import opened PatternPrinter
  import opened PatternReading
  import opened TopLevel

  // Spellings.

  ghost predicate Blank(u: Unicode, s: string) {
    forall i | 0 <= i < |s| :: u.whitespace(s[i])
  }

  /** The text is `core` with white space around it; all of it, if the text is blank. */
  ghost predicate Padded(u: Unicode, text: string, core: string) {
    && (core == [] || (!u.whitespace(core[0]) && !u.whitespace(core[|core| - 1])))
    && exists i | 0 <= i <= |text| - |core| :: PaddedAt(u, text, core, i)
  }

  ghost predicate PaddedAt(u: Unicode, text: string, core: string, i: nat)
    requires i + |core| <= |text|
  {
    Blank(u, text[..i]) && text[i..i + |core|] == core && Blank(u, text[i + |core|..])
  }

  /** A letter or an underscore, then letters, digits and underscores. */
  ghost predicate IsName(u: Unicode, s: string) {
    && s != []
    && (s[0] == '_' || u.alphabetic(s[0]))
    && forall c | c in s[1..] :: c == '_' || u.alphanumeric(c)
  }

  function Power10(n: nat): nat {
    if n == 0 then 1 else 10 * Power10(n - 1)
  }

  /** What decimal digits stand for, by their places. */
  function Decimal(digits: string): nat
    requires AllDigits(digits)
  {
    if digits == [] then 0 else (digits[0] - '0') as nat * Power10(|digits| - 1) + Decimal(digits[1..])
  }

  /** An optional sign and digits, leading zeros allowed, for a number that fits in 64 bits. */
  ghost predicate SpellsNumber(s: string, n: i64) {
    exists digits | IsDigits(digits) :: SignedDigits(s, digits, n)
  }

  predicate SignedDigits(s: string, digits: string, n: int)
    requires AllDigits(digits)
  {
    && (s == digits || s == "+" + digits || s == "-" + digits)
    && n == if s == "-" + digits then 0 - Decimal(digits) else Decimal(digits)
  }

  predicate IsDigits(s: string) {
    s != [] && AllDigits(s)
  }

  /** `prefix`, white space if any, and the name. */
  ghost predicate SpellsName(u: Unicode, s: string, prefix: char, name: string) {
    IsName(u, name) && exists gap | Blank(u, gap) :: s == [prefix] + gap + name
  }

  ghost predicate Bracketed(u: Unicode, s: string, open: char, close: char, body: string) {
    |s| >= 2 && s[0] == open && s[|s| - 1] == close && Padded(u, s[1..|s| - 1], body)
  }

  /** The text is a spelling of the pattern, with white space around it. */
  ghost predicate Reads(u: Unicode, text: string, p: Pattern)
    decreases p, 3
  {
    exists core | Padded(u, text, core) :: Spells(u, core, p)
  }

  ghost predicate Spells(u: Unicode, s: string, p: Pattern)
    decreases p, 2
  {
    match p
    case Wildcard => s == "*" || s == "_"
    case EnumPattern(name) => IsName(u, name) && s == ":" + name + ":"
    case StringLiteral(text) => s == "\"" + text + "\"" || s == "'" + text + "'"
    case NumberLiteral(n) => SpellsNumber(s, n)
    case BoolLiteral(b) => s == if b then "true" else "false"
    case Variable(name) => SpellsName(u, s, '$', name)
    case Pin(name) => SpellsName(u, s, '^', name)
    case ListOf(Empty) => Bracketed(u, s, '[', ']', "")
    case ListOf(HeadTail(_, _)) => exists body | Bracketed(u, s, '[', ']', body) :: HeadTailIn(u, body, p)
    case ListOf(Elements(_)) => exists body | Bracketed(u, s, '[', ']', body) :: ElementsIn(u, body, p)
    case MapOf(_) => exists body | Bracketed(u, s, '{', '}', body) :: EntriesIn(u, body, p)
  }

  ghost predicate HeadTailIn(u: Unicode, body: string, p: Pattern)
    requires p.ListOf? && p.list.HeadTail?
    decreases p, 1
  {
    exists i: nat :: HeadTailAt(u, body, p, i)
  }

  ghost predicate ElementsIn(u: Unicode, body: string, p: Pattern)
    requires p.ListOf? && p.list.Elements?
    decreases p, 1
  {
    body != "" && (forall i: nat :: !TopPipe(body, i)) && exists cuts :: ElementsAt(u, body, p, cuts)
  }

  ghost predicate EntriesIn(u: Unicode, body: string, p: Pattern)
    requires p.MapOf?
    decreases p, 1
  {
    if body == "" then p.entries == [] else exists cuts :: EntriesAt(u, body, p, cuts)
  }

  /** Head and tail are parted by the first pipe outside brackets. */
  ghost predicate HeadTailAt(u: Unicode, body: string, p: Pattern, i: nat)
    requires p.ListOf? && p.list.HeadTail?
    decreases p, 0
  {
    FirstPipe(body, i) && Reads(u, body[..i], p.list.head) && Reads(u, body[i + 1..], p.list.tail)
  }

  /** Elements are parted by the commas outside brackets and quotes. */
  ghost predicate ElementsAt(u: Unicode, body: string, p: Pattern, cuts: seq<nat>)
    requires p.ListOf? && p.list.Elements?
    decreases p, 0
  {
    TopCuts(body, cuts) &&
    var pieces, patterns := PiecesAt(body, 0, cuts), p.list.patterns;
    |pieces| == |patterns| && forall k | 0 <= k < |patterns| :: Reads(u, pieces[k], patterns[k])
  }

  ghost predicate EntriesAt(u: Unicode, body: string, p: Pattern, cuts: seq<nat>)
    requires p.MapOf?
    decreases p, 0
  {
    TopCuts(body, cuts) &&
    var pieces := PiecesAt(body, 0, cuts);
    |pieces| == |p.entries| && forall k | 0 <= k < |p.entries| :: ReadsEntry(u, pieces[k], p.entries[k])
  }

  /** A key, its first colon, and a pattern, with white space around each. */
  ghost predicate ReadsEntry(u: Unicode, piece: string, f: Field)
    decreases f, 1
  {
    exists pair | Padded(u, piece, pair) :: ReadsPair(u, pair, f)
  }

  ghost predicate ReadsPair(u: Unicode, pair: string, f: Field)
    decreases f, 0
  {
    exists c: nat | KeyEnds(u, pair, f.key, c) :: Reads(u, pair[c + 1..], f.pattern)
  }

  /** The piece starts with the key, in white space, up to its first colon, at `c`. */
  ghost predicate KeyEnds(u: Unicode, piece: string, key: string, c: nat) {
    c < |piece| && piece[c] == ':' && ':' !in piece[..c] && IsName(u, key) && Padded(u, piece[..c], key)
  }

  // White space.

  lemma {:induction false} TrimStartIs(u: Unicode, s: string, i: nat)
    requires i <= |s| && Blank(u, s[..i]) && (i < |s| ==> !u.whitespace(s[i]))
    ensures TrimStart(u, s) == s[i..]
  {
    if i > 0 {
      assert u.whitespace(s[..i][0]);
      assert s[1..][..i - 1] == s[..i][1..];
      TrimStartIs(u, s[1..], i - 1);
    }
  }

  lemma {:induction false} TrimEndIs(u: Unicode, s: string, n: nat)
    requires n <= |s| && Blank(u, s[n..]) && (n > 0 ==> !u.whitespace(s[n - 1]))
    ensures TrimEnd(u, s) == s[..n]
  {
    if n < |s| {
      var last := |s| - 1;
      assert u.whitespace(s[n..][last - n]);
      assert forall k | 0 <= k < last - n :: s[..last][n..][k] == s[n..][k];
      TrimEndIs(u, s[..last], n);
      assert s[..last][..n] == s[..n];
    } else {
      assert s[..n] == s;
    }
  }

  lemma PaddedIsTrimmed(u: Unicode, text: string, core: string)
    requires Padded(u, text, core)
    ensures Trim(u, text) == core
  {
    var i: nat :| i + |core| <= |text| && PaddedAt(u, text, core, i);
    if core == [] {
      assert text == text[..i] + text[i..];
      assert Blank(u, text[..|text|]);
      TrimStartIs(u, text, |text|);
      TrimEndIs(u, [], 0);
    } else {
      assert text[i] == core[0];
      TrimStartIs(u, text, i);
      var rest := text[i..];
      assert rest[|core|..] == text[i + |core|..] && rest[..|core|] == core && rest[|core| - 1] == core[|core| - 1];
      TrimEndIs(u, rest, |core|);
    }
  }

  lemma {:induction false} TrimStartLeaves(u: Unicode, s: string)
    ensures var i := |s| - |TrimStart(u, s)|; Blank(u, s[..i]) && TrimStart(u, s) == s[i..]
  {
    if s != [] && u.whitespace(s[0]) {
      TrimStartLeaves(u, s[1..]);
      var i := |s| - |TrimStart(u, s)|;
      assert s[..i] == [s[0]] + s[1..][..i - 1];
    }
  }

  lemma {:induction false} TrimEndLeaves(u: Unicode, s: string)
    ensures var n := |TrimEnd(u, s)|; TrimEnd(u, s) == s[..n] && Blank(u, s[n..])
  {
    if s != [] && u.whitespace(s[|s| - 1]) {
      var last := |s| - 1;
      TrimEndLeaves(u, s[..last]);
      var n := |TrimEnd(u, s)|;
      assert s[n..] == s[..last][n..] + [s[last]];
    }
  }

  lemma TrimmedIsPadded(u: Unicode, text: string)
    ensures Padded(u, text, Trim(u, text))
  {
    var t, core := TrimStart(u, text), Trim(u, text);
    TrimStartLeaves(u, text);
    TrimEndLeaves(u, t);
    TrimStartEnds(u, text);
    TrimEndEnds(u, t);
    var i := |text| - |t|;
    assert text[i..i + |core|] == t[..|core|] && text[i + |core|..] == t[|core|..];
    assert PaddedAt(u, text, core, i);
  }

  lemma PaddedIff(u: Unicode, text: string, core: string)
    ensures Padded(u, text, core) <==> core == Trim(u, text)
  {
    TrimmedIsPadded(u, text);
    if Padded(u, text, core) { PaddedIsTrimmed(u, text, core); }
  }

  lemma ReadsIsSpells(u: Unicode, text: string, p: Pattern)
    ensures Reads(u, text, p) <==> Spells(u, Trim(u, text), p)
  {
    hide Padded, Spells;
    forall core ensures Padded(u, text, core) <==> core == Trim(u, text) { PaddedIff(u, text, core); }
  }

  // Names and numbers.

  lemma NameIff(u: Unicode, s: string)
    ensures IsName(u, s) <==> IsIdentifier(u, s)
  {
    if s != [] {
      assert forall i | 1 <= i < |s| :: s[i] == s[1..][i - 1];
      assert forall i | 0 <= i < |s| - 1 :: s[1..][i] == s[i + 1];
    }
  }

  lemma {:induction false} DecimalSnoc(s: string, c: char)
    requires AllDigits(s) && IsDigit(c)
    ensures AllDigits(s + [c]) && Decimal(s + [c]) == Decimal(s) * 10 + (c - '0') as nat
  {
    if s == [] {
      assert s + [c] == [c] && [c][1..] == [];
      assert Decimal([c]) == (c - '0') as nat * Power10(0) + Decimal([]);
    } else {
      DecimalSnoc(s[1..], c);
      assert (s + [c])[1..] == s[1..] + [c];
      var d, p := (s[0] - '0') as nat, Power10(|s| - 1);
      assert Power10(|s|) == 10 * p;
      Places(d, p, Decimal(s[1..]));
    }
  }

  lemma Places(d: nat, p: nat, rest: nat)
    ensures d * (10 * p) + rest * 10 == (d * p + rest) * 10
  {
  }

  lemma {:induction false} DecimalIsValue(s: string)
    requires AllDigits(s)
    ensures Decimal(s) == DigitsValue(s)
  {
    if s != [] {
      var front, last := s[..|s| - 1], s[|s| - 1];
      DecimalIsValue(front);
      DecimalSnoc(front, last);
      assert s == front + [last];
    }
  }

  lemma NumberIff(s: string, n: i64)
    ensures SpellsNumber(s, n) <==> ParseI64(s) == Some(n)
  {
    if digits :| IsDigits(digits) && SignedDigits(s, digits, n) {
      DecimalIsValue(digits);
      assert IsDigit(digits[0]);
      if s != digits { assert s[1..] == digits; }
    }
    if ParseI64(s) == Some(n) {
      var digits := if s[0] == '-' || s[0] == '+' then s[1..] else s;
      DecimalIsValue(digits);
      assert s == digits || s == "+" + digits || s == "-" + digits;
      assert IsDigits(digits) && IsDigit(digits[0]) && SignedDigits(s, digits, n);
    }
  }

  lemma SpellsNameIff(u: Unicode, s: string, prefix: char, name: string)
    requires Lawful(u) && s != [] && s[0] == prefix && Trim(u, s) == s
    ensures SpellsName(u, s, prefix, name) <==> IsIdentifier(u, name) && Trim(u, s[1..]) == name
  {
    NameIff(u, name);
    hide IsName, IsIdentifier, Lawful, Trim;
    if IsIdentifier(u, name) {
      if gap :| Blank(u, gap) && s == [prefix] + gap + name { GapIsTrimmed(u, s, prefix, gap, name); }
      if Trim(u, s[1..]) == name {
        var gap := TrimmedGap(u, s, name);
        assert s == [prefix] + gap + name;
      }
    }
  }

  lemma GapIsTrimmed(u: Unicode, s: string, prefix: char, gap: string, name: string)
    requires Lawful(u) && IsIdentifier(u, name) && Blank(u, gap) && s == [prefix] + gap + name
    ensures Trim(u, s[1..]) == name
  {
    IdentifierIsTight(u, name);
    assert s[1..] == gap + name && (gap + name)[..|gap|] == gap && (gap + name)[|gap|..] == name;
    TrimStartIs(u, s[1..], |gap|);
    TrimEndIs(u, name, |name|);
    assert name[..|name|] == name;
  }

  lemma TrimmedGap(u: Unicode, s: string, name: string) returns (gap: string)
    requires s != [] && Trim(u, s) == s && Trim(u, s[1..]) == name
    ensures Blank(u, gap) && s[1..] == gap + name
  {
    hide Trim, Blank;
    TrimmedIsPadded(u, s[1..]);
    var i: nat :| i + |name| <= |s[1..]| && PaddedAt(u, s[1..], name, i);
    NothingAfter(u, s, i + |name|);
    gap := s[1..][..i];
  }

  /** A trimmed text has no white space at its end. */
  lemma NothingAfter(u: Unicode, s: string, n: nat)
    requires s != [] && Trim(u, s) == s && n <= |s[1..]| && Blank(u, s[1..][n..])
    ensures n == |s| - 1
  {
    LastIsSolid(u, s);
    hide Trim, Blank;
    assert s[1..][n..] == s[n + 1..];
    LastIsBlank(u, s, n + 1);
  }

  lemma LastIsSolid(u: Unicode, s: string)
    requires s != [] && Trim(u, s) == s
    ensures !u.whitespace(s[|s| - 1])
  {
    TrimEndEnds(u, TrimStart(u, s));
    hide TrimStart, TrimEnd;
  }

  lemma LastIsBlank(u: Unicode, s: string, n: nat)
    requires n <= |s| && Blank(u, s[n..])
    ensures n < |s| ==> u.whitespace(s[|s| - 1])
  {
    if n < |s| { assert s[n..][|s| - 1 - n] == s[|s| - 1]; }
  }

  // The parser reads the spellings.

  /** A trimmed text that is no list or map. */
  lemma LeafIff(u: Unicode, s: string, p: Pattern)
    requires Lawful(u) && Trim(u, s) == s && !p.ListOf? && !p.MapOf?
    ensures ParsePattern(u, s) == Parsed(p) <==> Spells(u, s, p)
  {
    match p {
      case Wildcard => WildcardIff(u, s);
      case EnumPattern(name) => EnumIff(u, s, name);
      case StringLiteral(text) => StringIff(u, s, text);
      case NumberLiteral(n) => NumberTextIff(u, s, n);
      case BoolLiteral(b) => BoolIff(u, s, b);
      case Variable(name) => VariableIff(u, s, name);
      case Pin(name) => PinIff(u, s, name);
    }
  }

  lemma WildcardIff(u: Unicode, s: string)
    requires Trim(u, s) == s
    ensures ParsePattern(u, s) == Parsed(Wildcard) <==> s == "*" || s == "_"
  {
    hide Trim, IsIdentifier, ParseI64, ParseList, ParseMap;
    BracketsAreNoWildcards(u, s);
  }

  /** Brackets are read as lists and maps. */
  lemma BracketsAreNoWildcards(u: Unicode, s: string)
    ensures |s| >= 2 && ParseList(u, s).Parsed? ==> ParseList(u, s).value.ListOf?
    ensures |s| >= 2 && ParseMap(u, s).Parsed? ==> ParseMap(u, s).value.MapOf?
  {
    hide ParsePattern, ParsePieces, ParseEntries, Trim, Split, PipeFrom;
  }

  lemma EnumIff(u: Unicode, s: string, name: string)
    requires Trim(u, s) == s
    ensures ParsePattern(u, s) == Parsed(EnumPattern(name)) <==> IsName(u, name) && s == ":" + name + ":"
  {
    NameIff(u, name);
    hide Trim, IsIdentifier, IsName, ParseI64, ParseList, ParseMap;
    BracketsAreNoWildcards(u, s);
    NamesAreNotEmpty(u, name);
    if s == ":" + name + ":" { assert s[1..|s| - 1] == name; }
    if ParsePattern(u, s) == Parsed(EnumPattern(name)) { assert s == ":" + s[1..|s| - 1] + ":"; }
  }

  lemma NamesAreNotEmpty(u: Unicode, name: string)
    ensures IsName(u, name) ==> name != []
  {
  }

  lemma StringIff(u: Unicode, s: string, text: string)
    requires Trim(u, s) == s
    ensures ParsePattern(u, s) == Parsed(StringLiteral(text)) <==> s == "\"" + text + "\"" || s == "'" + text + "'"
  {
    hide Trim, IsIdentifier, ParseI64, ParseList, ParseMap;
    BracketsAreNoWildcards(u, s);
    if s == "\"" + text + "\"" || s == "'" + text + "'" { assert s[1..|s| - 1] == text; }
    if ParsePattern(u, s) == Parsed(StringLiteral(text)) { assert s == [s[0]] + s[1..|s| - 1] + [s[|s| - 1]]; }
  }

  lemma BoolIff(u: Unicode, s: string, b: bool)
    requires Trim(u, s) == s
    ensures ParsePattern(u, s) == Parsed(BoolLiteral(b)) <==> s == if b then "true" else "false"
  {
    hide Trim, IsIdentifier, ParseI64, ParseList, ParseMap;
    BracketsAreNoWildcards(u, s);
  }

  /** A number begins with a digit or a sign. */
  lemma NumbersBegin(s: string)
    ensures ParseI64(s).Some? ==> s != [] && (IsDigit(s[0]) || s[0] == '-' || s[0] == '+')
  {
    if ParseI64(s).Some? && s[0] != '-' && s[0] != '+' { assert AllDigits(s); }
  }

  lemma NumberTextIff(u: Unicode, s: string, n: i64)
    requires Trim(u, s) == s
    ensures ParsePattern(u, s) == Parsed(NumberLiteral(n)) <==> SpellsNumber(s, n)
  {
    NumberIff(s, n);
    NumbersBegin(s);
    hide Trim, IsIdentifier, ParseI64, SpellsNumber, ParseList, ParseMap;
    BracketsAreNoWildcards(u, s);
  }

  /** A dollar sign reads as a variable or not at all, a caret as a pin, and nothing else reads as either. */
  lemma PrefixDecides(u: Unicode, s: string)
    requires Trim(u, s) == s
    ensures s != [] && s[0] == '$' ==>
      ParsePattern(u, s) == if IsIdentifier(u, Trim(u, s[1..])) then Parsed(Variable(Trim(u, s[1..])))
                            else Failed(InvalidVariableName)
    ensures s != [] && s[0] == '^' ==>
      ParsePattern(u, s) == if IsIdentifier(u, Trim(u, s[1..])) then Parsed(Pin(Trim(u, s[1..])))
                            else Failed(InvalidPinName)
    ensures ParsePattern(u, s).Parsed? ==>
      && (ParsePattern(u, s).value.Variable? ==> s != [] && s[0] == '$')
      && (ParsePattern(u, s).value.Pin? ==> s != [] && s[0] == '^')
  {
    hide Trim, IsIdentifier, ParseI64, ParseList, ParseMap;
    NumbersBegin(s);
    BracketsAreNoWildcards(u, s);
  }

  lemma VariableIff(u: Unicode, s: string, name: string)
    requires Lawful(u) && Trim(u, s) == s
    ensures ParsePattern(u, s) == Parsed(Variable(name)) <==> SpellsName(u, s, '$', name)
  {
    hide ParsePattern, Trim, IsIdentifier, IsName;
    PrefixDecides(u, s);
    if s != [] && s[0] == '$' { SpellsNameIff(u, s, '$', name); }
  }

  lemma PinIff(u: Unicode, s: string, name: string)
    requires Lawful(u) && Trim(u, s) == s
    ensures ParsePattern(u, s) == Parsed(Pin(name)) <==> SpellsName(u, s, '^', name)
  {
    hide ParsePattern, Trim, IsIdentifier, IsName;
    PrefixDecides(u, s);
    if s != [] && s[0] == '^' { SpellsNameIff(u, s, '^', name); }
  }

  lemma BracketedIff(u: Unicode, s: string, open: char, close: char, body: string)
    ensures Bracketed(u, s, open, close, body) <==> |s| >= 2 && Enclosed(s, open, close) && body == Trim(u, Inner(s))
  {
    if |s| >= 2 { PaddedIff(u, Inner(s), body); }
  }

  /** Lists are read from square brackets, maps from curly ones. */
  lemma ListsAndMaps(u: Unicode, s: string, p: Pattern)
    requires Trim(u, s) == s
    ensures p.ListOf? && ParsePattern(u, s) == Parsed(p) ==> |s| >= 2 && Enclosed(s, '[', ']')
    ensures p.MapOf? && ParsePattern(u, s) == Parsed(p) ==> |s| >= 2 && Enclosed(s, '{', '}')
    ensures |s| >= 2 && Enclosed(s, '[', ']') ==> ParsePattern(u, s) == ParseList(u, s)
    ensures |s| >= 2 && Enclosed(s, '{', '}') ==> ParsePattern(u, s) == ParseMap(u, s)
  {
    hide Trim, IsIdentifier, ParseI64, ParseList, ParseMap;
    NotALiteral(u, s);
    BracketsAreNoWildcards(u, s);
  }

  lemma EmptyIff(u: Unicode, s: string)
    requires Trim(u, s) == s
    ensures ParsePattern(u, s) == Parsed(ListOf(Empty)) <==> Bracketed(u, s, '[', ']', "")
  {
    hide ParsePattern, ParsePieces, Trim, Split, PipeFrom, Bracketed;
    ListsAndMaps(u, s, ListOf(Empty));
    BracketedIff(u, s, '[', ']', "");
  }

  ghost predicate ReadsAsParsed(u: Unicode, p: Pattern) {
    forall text :: ParsePattern(u, text) == Parsed(p) <==> Reads(u, text, p)
  }

  lemma HeadTailIff(u: Unicode, s: string, head: Pattern, tail: Pattern)
    requires Trim(u, s) == s && ReadsAsParsed(u, head) && ReadsAsParsed(u, tail)
    ensures ParsePattern(u, s) == Parsed(ListOf(HeadTail(head, tail))) <==> Spells(u, s, ListOf(HeadTail(head, tail)))
  {
    hide ParsePattern, ParseList, ParseMap, Trim, PipeFrom, Reads, Spells, HeadTailIn;
    ListsAndMaps(u, s, ListOf(HeadTail(head, tail)));
    SpelledHeadTail(u, s, head, tail);
    if |s| >= 2 && Enclosed(s, '[', ']') {
      ParsedHeadTail(u, s, head, tail);
      HeadTailInIff(u, Trim(u, Inner(s)), head, tail);
    }
  }

  lemma ParsedHeadTail(u: Unicode, s: string, head: Pattern, tail: Pattern)
    requires |s| >= 2
    ensures var body := Trim(u, Inner(s));
      var at := PipeFrom(body, 0);
      ParseList(u, s) == Parsed(ListOf(HeadTail(head, tail))) <==>
        at.Some? && ParsePattern(u, body[..at.value]) == Parsed(head) &&
          ParsePattern(u, body[at.value + 1..]) == Parsed(tail)
  {
    hide ParsePattern, ParsePieces, Trim, Split, PipeFrom;
    var body := Trim(u, Inner(s));
    var at := PipeFrom(body, 0);
    EmptyHasNoPipe();
    if at.Some? {
      ParseTrims(u, body[..at.value]);
      ParseTrims(u, body[at.value + 1..]);
    }
  }

  lemma HeadTailInIff(u: Unicode, body: string, head: Pattern, tail: Pattern)
    ensures HeadTailIn(u, body, ListOf(HeadTail(head, tail))) <==>
      var at := PipeFrom(body, 0);
      at.Some? && Reads(u, body[..at.value], head) && Reads(u, body[at.value + 1..], tail)
  {
    var p := ListOf(HeadTail(head, tail));
    hide PipeFrom, Reads, FirstPipe;
    if i: nat :| HeadTailAt(u, body, p, i) { PipeIff(body, i); }
    var at := PipeFrom(body, 0);
    if at.Some? && Reads(u, body[..at.value], head) && Reads(u, body[at.value + 1..], tail) {
      PipeIff(body, at.value);
      assert HeadTailAt(u, body, p, at.value);
    }
  }

  lemma SpelledHeadTail(u: Unicode, s: string, head: Pattern, tail: Pattern)
    ensures Spells(u, s, ListOf(HeadTail(head, tail))) <==>
      |s| >= 2 && Enclosed(s, '[', ']') && HeadTailIn(u, Trim(u, Inner(s)), ListOf(HeadTail(head, tail)))
  {
    var p := ListOf(HeadTail(head, tail));
    hide Trim, Bracketed, HeadTailIn;
    if body :| Bracketed(u, s, '[', ']', body) && HeadTailIn(u, body, p) { BracketedIff(u, s, '[', ']', body); }
    if |s| >= 2 && Enclosed(s, '[', ']') { BracketedIff(u, s, '[', ']', Trim(u, Inner(s))); }
  }

  lemma EmptyHasNoPipe()
    ensures PipeFrom("", 0) == None
  {
  }

  lemma ParsedElements(u: Unicode, s: string, patterns: seq<Pattern>)
    requires |s| >= 2
    ensures var body := Trim(u, Inner(s));
      var pieces := Split(body, 0, None, []);
      ParseList(u, s) == Parsed(ListOf(Elements(patterns))) <==>
        body != "" && PipeFrom(body, 0) == None && AllParsed(u, pieces, patterns)
  {
    hide ParsePattern, ParsePieces, Trim, Split, PipeFrom, AllParsed;
    var body := Trim(u, Inner(s));
    var pieces := Split(body, 0, None, []);
    PiecesAreShort(body, 0, None, []);
    PiecesParsed(u, pieces, |s| - 1, patterns);
  }

  ghost predicate AllParsed(u: Unicode, pieces: seq<string>, patterns: seq<Pattern>) {
    |pieces| == |patterns| && forall k | 0 <= k < |patterns| :: ParsePattern(u, pieces[k]) == Parsed(patterns[k])
  }

  lemma PiecesParsed(u: Unicode, pieces: seq<string>, n: nat, patterns: seq<Pattern>)
    requires forall piece | piece in pieces :: |piece| < n
    ensures ParsePieces(u, pieces, n) == Parsed(patterns) <==> AllParsed(u, pieces, patterns)
  {
    hide ParsePattern, Trim;
    forall k | 0 <= k < |pieces| ensures ParsePattern(u, Trim(u, pieces[k])) == ParsePattern(u, pieces[k]) {
      ParseTrims(u, pieces[k]);
    }
    if |pieces| == |patterns| {
      hide ParsePieces;
      PiecesRead(u, pieces, n, patterns);
    } else if pieces != [] && ParsePieces(u, pieces, n).Parsed? {
      hide ParsePieces;
      ReadPieceAt(u, pieces, n, 0);
    }
  }

  lemma ElementsInIff(u: Unicode, body: string, patterns: seq<Pattern>)
    ensures ElementsIn(u, body, ListOf(Elements(patterns))) <==>
      body != "" && PipeFrom(body, 0) == None && AllRead(u, Split(body, 0, None, []), patterns)
  {
    var p := ListOf(Elements(patterns));
    hide PipeFrom, Reads, TopPipe, TopCuts, Split;
    PipeIff(body, 0);
    if cuts :| ElementsAt(u, body, p, cuts) { SplitIff(body, cuts); }
    var cuts := CutsExist(body);
    assert AllRead(u, Split(body, 0, None, []), patterns) ==> ElementsAt(u, body, p, cuts);
  }

  lemma SpelledElements(u: Unicode, s: string, patterns: seq<Pattern>)
    ensures Spells(u, s, ListOf(Elements(patterns))) <==>
      |s| >= 2 && Enclosed(s, '[', ']') && ElementsIn(u, Trim(u, Inner(s)), ListOf(Elements(patterns)))
  {
    var p := ListOf(Elements(patterns));
    hide Trim, Bracketed, ElementsIn;
    if body :| Bracketed(u, s, '[', ']', body) && ElementsIn(u, body, p) { BracketedIff(u, s, '[', ']', body); }
    if |s| >= 2 && Enclosed(s, '[', ']') { BracketedIff(u, s, '[', ']', Trim(u, Inner(s))); }
  }

  ghost predicate AllRead(u: Unicode, pieces: seq<string>, patterns: seq<Pattern>) {
    |pieces| == |patterns| && forall k | 0 <= k < |patterns| :: Reads(u, pieces[k], patterns[k])
  }

  lemma ElementsIff(u: Unicode, s: string, patterns: seq<Pattern>)
    requires Trim(u, s) == s && forall k | 0 <= k < |patterns| :: ReadsAsParsed(u, patterns[k])
    ensures ParsePattern(u, s) == Parsed(ListOf(Elements(patterns))) <==> Spells(u, s, ListOf(Elements(patterns)))
  {
    hide ParsePattern, ParseList, Trim, PipeFrom, Reads, Spells, Split, AllRead, AllParsed, ElementsIn;
    ListsAndMaps(u, s, ListOf(Elements(patterns)));
    SpelledElements(u, s, patterns);
    if |s| >= 2 && Enclosed(s, '[', ']') {
      ParsedElements(u, s, patterns);
      ElementsInIff(u, Trim(u, Inner(s)), patterns);
      ReadAsParsed(u, Split(Trim(u, Inner(s)), 0, None, []), patterns);
    }
  }

  lemma ReadAsParsed(u: Unicode, pieces: seq<string>, patterns: seq<Pattern>)
    requires forall k | 0 <= k < |patterns| :: ReadsAsParsed(u, patterns[k])
    ensures AllParsed(u, pieces, patterns) <==> AllRead(u, pieces, patterns)
  {
    hide ParsePattern, Reads;
  }

  // Maps.

  ghost predicate AllEntriesParsed(u: Unicode, pieces: seq<string>, entries: Fields) {
    |pieces| == |entries| && forall k | 0 <= k < |entries| :: ParseEntry(u, pieces[k]) == Parsed(entries[k])
  }

  ghost predicate AllEntriesRead(u: Unicode, pieces: seq<string>, entries: Fields) {
    |pieces| == |entries| && forall k | 0 <= k < |entries| :: ReadsEntry(u, pieces[k], entries[k])
  }

  lemma EntriesParsed(u: Unicode, pieces: seq<string>, n: nat, entries: Fields)
    requires forall piece | piece in pieces :: |piece| < n
    ensures ParseEntries(u, pieces, n) == Parsed(entries) <==> AllEntriesParsed(u, pieces, entries)
  {
    hide ParseEntry, ParseEntries;
    if |pieces| == |entries| {
      EntriesRead(u, pieces, n, entries);
    } else if ParseEntries(u, pieces, n).Parsed? {
      EntryCount(u, pieces, n);
    }
  }

  lemma ParsedMap(u: Unicode, s: string, entries: Fields)
    requires |s| >= 2
    ensures var body := Trim(u, Inner(s));
      ParseMap(u, s) == Parsed(MapOf(entries)) <==>
        if body == "" then entries == [] else AllEntriesParsed(u, Split(body, 0, None, []), entries)
  {
    hide ParseEntry, ParseEntries, Trim, Split, AllEntriesParsed;
    var body := Trim(u, Inner(s));
    var pieces := Split(body, 0, None, []);
    PiecesAreShort(body, 0, None, []);
    EntriesParsed(u, pieces, |s| - 1, entries);
  }

  lemma EntriesInIff(u: Unicode, body: string, entries: Fields)
    ensures EntriesIn(u, body, MapOf(entries)) <==>
      if body == "" then entries == [] else AllEntriesRead(u, Split(body, 0, None, []), entries)
  {
    var p := MapOf(entries);
    hide ReadsEntry, TopCuts, Split;
    if cuts :| EntriesAt(u, body, p, cuts) { SplitIff(body, cuts); }
    var cuts := CutsExist(body);
    assert AllEntriesRead(u, Split(body, 0, None, []), entries) ==> EntriesAt(u, body, p, cuts);
  }

  lemma SpelledMap(u: Unicode, s: string, entries: Fields)
    ensures Spells(u, s, MapOf(entries)) <==>
      |s| >= 2 && Enclosed(s, '{', '}') && EntriesIn(u, Trim(u, Inner(s)), MapOf(entries))
  {
    var p := MapOf(entries);
    hide Trim, Bracketed, EntriesIn;
    if body :| Bracketed(u, s, '{', '}', body) && EntriesIn(u, body, p) { BracketedIff(u, s, '{', '}', body); }
    if |s| >= 2 && Enclosed(s, '{', '}') { BracketedIff(u, s, '{', '}', Trim(u, Inner(s))); }
  }

  /** Where the key of a piece ends: its first colon. */
  lemma {:induction false} FirstIndex(s: string, c: char)
    ensures var i := IndexOf(s, c); c !in s[..i] && (i < |s| ==> s[i] == c)
  {
    if s != [] && s[0] != c {
      FirstIndex(s[1..], c);
      var i := IndexOf(s[1..], c);
      assert s[..i + 1] == [s[0]] + s[1..][..i];
    }
  }

  lemma EntryIff(u: Unicode, piece: string, f: Field)
    requires ReadsAsParsed(u, f.pattern)
    ensures ParseEntry(u, piece) == Parsed(f) <==> ReadsEntry(u, piece, f)
  {
    hide ReadsPair, Padded, ParseEntry;
    PairIff(u, piece, f);
    forall pair ensures Padded(u, piece, pair) <==> pair == Trim(u, piece) { PaddedIff(u, piece, pair); }
  }

  lemma PairIff(u: Unicode, piece: string, f: Field)
    requires ReadsAsParsed(u, f.pattern)
    ensures ParseEntry(u, piece) == Parsed(f) <==> ReadsPair(u, Trim(u, piece), f)
  {
    hide KeyEnds;
    hide ParsePattern, Reads, Trim, IsIdentifier;
    var pair := Trim(u, piece);
    var colon := IndexOf(pair, ':');
    FirstIndex(pair, ':');
    KeyEndsAt(u, pair, f.key);
    if colon < |pair| { ParseTrims(u, pair[colon + 1..]); }
  }

  lemma MapIff(u: Unicode, s: string, entries: Fields)
    requires Trim(u, s) == s && forall k | 0 <= k < |entries| :: ReadsAsParsed(u, entries[k].pattern)
    ensures ParsePattern(u, s) == Parsed(MapOf(entries)) <==> Spells(u, s, MapOf(entries))
  {
    hide ParsePattern, ParseMap, Trim, Spells, Split, EntriesIn, AllEntriesRead, AllEntriesParsed;
    ListsAndMaps(u, s, MapOf(entries));
    SpelledMap(u, s, entries);
    if |s| >= 2 && Enclosed(s, '{', '}') {
      var body := Trim(u, Inner(s));
      ParsedMap(u, s, entries);
      EntriesInIff(u, body, entries);
      EntriesReadAsParsed(u, Split(body, 0, None, []), entries);
    }
  }

  lemma EntriesReadAsParsed(u: Unicode, pieces: seq<string>, entries: Fields)
    requires forall k | 0 <= k < |entries| :: ReadsAsParsed(u, entries[k].pattern)
    ensures AllEntriesParsed(u, pieces, entries) <==> AllEntriesRead(u, pieces, entries)
  {
    hide ParseEntry, ReadsEntry, ReadsAsParsed;
    forall k | 0 <= k < |entries| && |pieces| == |entries|
      ensures ParseEntry(u, pieces[k]) == Parsed(entries[k]) <==> ReadsEntry(u, pieces[k], entries[k])
    {
      EntryIff(u, pieces[k], entries[k]);
    }
  }

  lemma KeyEndsAt(u: Unicode, pair: string, key: string)
    ensures forall c: nat :: KeyEnds(u, pair, key, c) <==>
      c == IndexOf(pair, ':') && c < |pair| && IsIdentifier(u, key) && key == Trim(u, pair[..c])
  {
    NameIff(u, key);
    FirstIndex(pair, ':');
    forall c: nat
      ensures KeyEnds(u, pair, key, c) <==>
        c == IndexOf(pair, ':') && c < |pair| && IsIdentifier(u, key) && key == Trim(u, pair[..c])
    {
      if c < |pair| { PaddedIff(u, pair[..c], key); }
      if c < |pair| && pair[c] == ':' && ':' !in pair[..c] { IndexIs(pair, ':', c); }
    }
  }

  lemma {:induction false} IndexIs(s: string, c: char, i: nat)
    requires i < |s| && s[i] == c && c !in s[..i]
    ensures IndexOf(s, c) == i
  {
    if i > 0 {
      assert s[0] == s[..i][0] && s[1..][..i - 1] == s[..i][1..];
      IndexIs(s[1..], c, i - 1);
    }
  }

  /**
   The parser reads a text as a pattern exactly when the text is a spelling of it: this says which texts are
   accepted, and which pattern each of them is.
   */
  lemma {:induction false} ReadsIff(u: Unicode, text: string, p: Pattern)
    requires Lawful(u)
    ensures ParsePattern(u, text) == Parsed(p) <==> Reads(u, text, p)
    decreases p
  {
    var s := Trim(u, text);
    ParseTrims(u, text);
    TrimTwice(u, text);
    ReadsIsSpells(u, text, p);
    hide ParsePattern, Reads, Spells, Trim;
    match p {
      case ListOf(Empty) => EmptySpelled(u, s);
      case ListOf(HeadTail(head, tail)) =>
        forall t ensures ParsePattern(u, t) == Parsed(head) <==> Reads(u, t, head) { ReadsIff(u, t, head); }
        forall t ensures ParsePattern(u, t) == Parsed(tail) <==> Reads(u, t, tail) { ReadsIff(u, t, tail); }
        HeadTailIff(u, s, head, tail);
      case ListOf(Elements(patterns)) =>
        forall k, t | 0 <= k < |patterns|
          ensures ParsePattern(u, t) == Parsed(patterns[k]) <==> Reads(u, t, patterns[k])
        {
          ReadsIff(u, t, patterns[k]);
        }
        ElementsIff(u, s, patterns);
      case MapOf(entries) =>
        forall k, t | 0 <= k < |entries|
          ensures ParsePattern(u, t) == Parsed(entries[k].pattern) <==> Reads(u, t, entries[k].pattern)
        {
          ReadsIff(u, t, entries[k].pattern);
        }
        MapIff(u, s, entries);
      case _ => LeafIff(u, s, p);
    }
  }

  lemma EmptySpelled(u: Unicode, s: string)
    requires Trim(u, s) == s
    ensures ParsePattern(u, s) == Parsed(ListOf(Empty)) <==> Spells(u, s, ListOf(Empty))
  {
    hide ParsePattern, Bracketed;
    EmptyIff(u, s);
  }
}
