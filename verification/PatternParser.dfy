/** Pattern texts: the parser of `crates/luaml/src/pattern.rs`. */
module PatternParser {
  import opened Wrappers
  import opened Values
  import opened Patterns

  /** The character classes of the host library, which this model leaves open. */
  datatype Unicode = Unicode(alphabetic: char -> bool, alphanumeric: char -> bool, whitespace: char -> bool)

  /** The characters that script syntax gives a meaning. */
  predicate IsPunctuation(c: char) {
    c == '*' || c == '_' || c == ':' || IsQuote(c) || c == '+' || c == '-' || c == '$' || c == '^'
    || Opens(c) || Closes(c) || c == '|' || c == ',' || c == '!' || c == '?' || c == '@'
  }

  /** What the model relies on: punctuation, digits, letters and white space are told apart. */
  ghost predicate Lawful(u: Unicode) {
    && (forall c :: u.alphabetic(c) ==> u.alphanumeric(c))
    && (forall c :: u.alphanumeric(c) ==> !u.whitespace(c))
    && (forall c | IsPunctuation(c) :: !u.alphanumeric(c) && !u.whitespace(c))
    && (forall c | 'a' <= c <= 'z' :: u.alphabetic(c))
    && (forall c | IsDigit(c) :: u.alphanumeric(c) && !u.alphabetic(c))
    && u.whitespace(' ')
  }

  /** The classes of ASCII are one choice. */
  lemma AsciiIsLawful()
    ensures Lawful(Unicode(IsLetter, c => IsLetter(c) || IsDigit(c), c => c == ' ' || '\t' <= c <= '\r'))
  {
  }

  predicate Opens(c: char) { c == '[' || c == '{' }

  predicate Closes(c: char) { c == ']' || c == '}' }

  predicate IsQuote(c: char) { c == '"' || c == '\'' }

  function TrimStart(u: Unicode, s: string): (t: string)
    ensures |t| <= |s|
  {
    if s != [] && u.whitespace(s[0]) then TrimStart(u, s[1..]) else s
  }

  function TrimEnd(u: Unicode, s: string): (t: string)
    ensures |t| <= |s|
  {
    if s != [] && u.whitespace(s[|s| - 1]) then TrimEnd(u, s[..|s| - 1]) else s
  }

  /** `str::trim`. */
  function Trim(u: Unicode, s: string): (t: string)
    ensures |t| <= |s|
  {
    TrimEnd(u, TrimStart(u, s))
  }

  predicate IsIdentifier(u: Unicode, s: string) {
    && s != []
    && (u.alphabetic(s[0]) || s[0] == '_')
    && forall i | 1 <= i < |s| :: u.alphanumeric(s[i]) || s[i] == '_'
  }

  predicate AllDigits(s: string) {
    forall i | 0 <= i < |s| :: IsDigit(s[i])
  }

  function DigitsValue(s: string): nat
    requires AllDigits(s)
  {
    if s == [] then 0 else DigitsValue(s[..|s| - 1]) * 10 + (s[|s| - 1] - '0') as nat
  }

  const I64_LIMIT := 0x8000_0000_0000_0000

  /** `str::parse::<i64>`: an optional sign, then digits, in range. */
  function ParseI64(s: string): Option<i64> {
    var signed := s != [] && (s[0] == '-' || s[0] == '+');
    var digits := if signed then s[1..] else s;
    if digits == [] || !AllDigits(digits) then None
    else
      var n := DigitsValue(digits);
      if s[0] == '-' then if n <= I64_LIMIT then Some(0 - n) else None
      else if n < I64_LIMIT then Some(n) else None
  }

  /** The first `|` outside all brackets, where `depth` of them are open at the start; quotes do not count. */
  function PipeFrom(s: string, depth: int): (at: Option<nat>)
    ensures at.Some? ==> at.value < |s| && s[at.value] == '|'
  {
    if s == [] then None
    else if s[0] == '|' && depth == 0 then Some(0)
    else
      var d := if Opens(s[0]) then depth + 1 else if Closes(s[0]) then depth - 1 else depth;
      match PipeFrom(s[1..], d)
      case None => None
      case Some(i) => Some(i + 1)
  }

  method FindPipe(s: string) returns (at: Option<nat>)
    ensures at == PipeFrom(s, 0)
  {
    var depth := 0;
    assert s[0..] == s;
    for i := 0 to |s|
      invariant match PipeFrom(s[i..], depth)
        case None => PipeFrom(s, 0) == None
        case Some(k) => PipeFrom(s, 0) == Some(i + k)
    {
      assert s[i..][0] == s[i] && s[i..][1..] == s[i + 1..];
      if Opens(s[i]) {
        depth := depth + 1;
      } else if Closes(s[i]) {
        depth := depth - 1;
      } else if s[i] == '|' && depth == 0 {
        return Some(i);
      }
    }
    return None;
  }

  /** The rest of a split at top-level commas: `current` is the piece being read, `quote` the open quote. */
  function Split(s: string, depth: int, quote: Option<char>, current: string): seq<string> {
    if s == [] then if current == [] then [] else [current]
    else
      var c := s[0];
      if quote.Some? then Split(s[1..], depth, if c == quote.value then None else quote, current + [c])
      else if IsQuote(c) then Split(s[1..], depth, Some(c), current + [c])
      else if Opens(c) then Split(s[1..], depth + 1, None, current + [c])
      else if Closes(c) then Split(s[1..], depth - 1, None, current + [c])
      else if c == ',' && depth == 0 then [current] + Split(s[1..], depth, None, [])
      else Split(s[1..], depth, None, current + [c])
  }

  method SplitTopLevel(s: string) returns (parts: seq<string>)
    ensures parts == Split(s, 0, None, [])
  {
    parts := [];
    var depth, current := 0, "";
    var inQuotes, quoteChar := false, '"';
    assert s[0..] == s;
    for i := 0 to |s|
      invariant parts + Split(s[i..], depth, if inQuotes then Some(quoteChar) else None, current) ==
        Split(s, 0, None, [])
    {
      assert s[i..][0] == s[i] && s[i..][1..] == s[i + 1..];
      var c := s[i];
      if inQuotes {
        current := current + [c];
        if c == quoteChar {
          inQuotes := false;
        }
        continue;
      }
      if IsQuote(c) {
        inQuotes := true;
        quoteChar := c;
        current := current + [c];
      } else if Opens(c) {
        depth := depth + 1;
        current := current + [c];
      } else if Closes(c) {
        depth := depth - 1;
        current := current + [c];
      } else if c == ',' && depth == 0 {
        assert parts + ([current] + Split(s[i + 1..], depth, None, [])) ==
          parts + [current] + Split(s[i + 1..], depth, None, []);
        parts := parts + [current];
        current := "";
      } else {
        current := current + [c];
      }
    }
    if current != "" {
      parts := parts + [current];
    }
  }

  lemma {:induction false} PiecesAreShort(s: string, depth: int, quote: Option<char>, current: string)
    ensures forall piece | piece in Split(s, depth, quote, current) :: |piece| <= |s| + |current|
    decreases |s|
  {
    if s != [] {
      var c := s[0];
      if quote.Some? {
        PiecesAreShort(s[1..], depth, if c == quote.value then None else quote, current + [c]);
      } else if IsQuote(c) {
        PiecesAreShort(s[1..], depth, Some(c), current + [c]);
      } else if c == ',' && depth == 0 {
        PiecesAreShort(s[1..], depth, None, []);
      } else {
        var next := if Opens(c) then depth + 1 else if Closes(c) then depth - 1 else depth;
        PiecesAreShort(s[1..], next, None, current + [c]);
      }
    }
  }

  datatype PatternError =
    | EmptyPattern | InvalidEnumName | InvalidVariableName | InvalidPinName | BareWord | MissingColon | InvalidMapKey

  /** `Panic` stands for a slice out of range. */
  datatype Parse<T> = Parsed(value: T) | Failed(error: PatternError) | Panic

  predicate Enclosed(s: string, open: char, close: char) {
    s != [] && s[0] == open && s[|s| - 1] == close
  }

  function Inner(s: string): string
    requires |s| >= 2
  {
    s[1..|s| - 1]
  }

  /** The first position of `c`, or the length. */
  function IndexOf(s: string, c: char): (i: nat)
    ensures i <= |s|
  {
    if s == [] || s[0] == c then 0 else 1 + IndexOf(s[1..], c)
  }

  /** `parse_pattern_value`. */
  function ParsePattern(u: Unicode, input: string): Parse<Pattern>
    decreases |input|, 2
  {
    var s := Trim(u, input);
    if s == [] then Failed(EmptyPattern)
    else if s == "*" || s == "_" then Parsed(Wildcard)
    else if Enclosed(s, ':', ':') && |s| >= 3 then
      if IsIdentifier(u, Inner(s)) then Parsed(EnumPattern(Inner(s))) else Failed(InvalidEnumName)
    else if Enclosed(s, '"', '"') || Enclosed(s, '\'', '\'') then
      if |s| == 1 then Panic else Parsed(StringLiteral(Inner(s)))
    else if s == "true" then Parsed(BoolLiteral(true))
    else if s == "false" then Parsed(BoolLiteral(false))
    else if ParseI64(s).Some? then Parsed(NumberLiteral(ParseI64(s).value))
    else if s[0] == '$' then
      var name := Trim(u, s[1..]);
      if IsIdentifier(u, name) then Parsed(Variable(name)) else Failed(InvalidVariableName)
    else if s[0] == '^' then
      var name := Trim(u, s[1..]);
      if IsIdentifier(u, name) then Parsed(Pin(name)) else Failed(InvalidPinName)
    else if Enclosed(s, '[', ']') then ParseList(u, s)
    else if Enclosed(s, '{', '}') then ParseMap(u, s)
    else Failed(BareWord)
  }

  function ParseList(u: Unicode, s: string): Parse<Pattern>
    requires |s| >= 2
    decreases |s|, 1
  {
    var inner := Trim(u, Inner(s));
    if inner == [] then Parsed(ListOf(Empty))
    else
      match PipeFrom(inner, 0)
      case Some(i) =>
        (match ParsePattern(u, Trim(u, inner[..i]))
         case Failed(e) => Failed(e)
         case Panic => Panic
         case Parsed(head) =>
           match ParsePattern(u, Trim(u, inner[i + 1..]))
           case Failed(e) => Failed(e)
           case Panic => Panic
           case Parsed(tail) => Parsed(ListOf(HeadTail(head, tail))))
      case None =>
        PiecesAreShort(inner, 0, None, []);
        match ParsePieces(u, Split(inner, 0, None, []), |s| - 1)
        case Failed(e) => Failed(e)
        case Panic => Panic
        case Parsed(patterns) => Parsed(ListOf(Elements(patterns)))
  }

  /** Parses pieces shorter than `n` from left to right, up to the first that fails. */
  function ParsePieces(u: Unicode, pieces: seq<string>, n: nat): Parse<seq<Pattern>>
    requires forall piece | piece in pieces :: |piece| < n
    decreases n, 0, |pieces|
  {
    if pieces == [] then Parsed([])
    else
      match ParsePattern(u, Trim(u, pieces[0]))
      case Failed(e) => Failed(e)
      case Panic => Panic
      case Parsed(p) =>
        match ParsePieces(u, pieces[1..], n)
        case Failed(e) => Failed(e)
        case Panic => Panic
        case Parsed(rest) => Parsed([p] + rest)
  }

  function ParseMap(u: Unicode, s: string): Parse<Pattern>
    requires |s| >= 2
    decreases |s|, 1
  {
    var inner := Trim(u, Inner(s));
    if inner == [] then Parsed(MapOf([]))
    else
      PiecesAreShort(inner, 0, None, []);
      match ParseEntries(u, Split(inner, 0, None, []), |s| - 1)
      case Failed(e) => Failed(e)
      case Panic => Panic
      case Parsed(entries) => Parsed(MapOf(entries))
  }

  /** One `key: pattern` piece of a map pattern. */
  function ParseEntry(u: Unicode, piece: string): Parse<Field>
    decreases |piece|, 3
  {
    var pair := Trim(u, piece);
    var colon := IndexOf(pair, ':');
    if colon == |pair| then Failed(MissingColon)
    else
      var key := Trim(u, pair[..colon]);
      if !IsIdentifier(u, key) then Failed(InvalidMapKey)
      else
        match ParsePattern(u, Trim(u, pair[colon + 1..]))
        case Failed(e) => Failed(e)
        case Panic => Panic
        case Parsed(p) => Parsed(Field(key, p))
  }

  function ParseEntries(u: Unicode, pieces: seq<string>, n: nat): Parse<Fields>
    requires forall piece | piece in pieces :: |piece| < n
    decreases n, 0, |pieces|
  {
    if pieces == [] then Parsed([])
    else
      match ParseEntry(u, pieces[0])
      case Failed(e) => Failed(e)
      case Panic => Panic
      case Parsed(field) =>
        match ParseEntries(u, pieces[1..], n)
        case Failed(e) => Failed(e)
        case Panic => Panic
        case Parsed(rest) => Parsed([field] + rest)
  }
}
