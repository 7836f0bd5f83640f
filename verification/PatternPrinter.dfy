/**
 Printing patterns, and what the proof of the round trip needs to know about printed texts.

 - A printed text is tight: it neither starts nor ends with white space, so trimming leaves it alone.
 - A printed text is solid: the splitter at top-level commas takes it whole, at any depth and in front of
   any other text.  Joining solid texts by ", " is therefore undone by splitting.
 - A printed text is as light as any text the parser reads as the same pattern.  The weight of a text counts
   its characters other than white space and commas; trimming keeps it, splitting and cutting at a pipe lose
   nothing but commas and the pipe, and a number or a string is printed no longer than it can be written.
   A head and tail list that is cut at a pipe other than its separator leaves one part too light to be read
   as the head or the tail, which is why such a list is never read back by accident.
 */
module PatternPrinter {
  import opened Wrappers
  import opened Values
  import opened Patterns
  import opened PatternParser

  function IntText(n: i64): string {
    if n < 0 then "-" + DigitsText(-(n as int)) else DigitsText(n)
  }

  /** A quote character that does not occur in the text, if there is one. */
  function QuoteFor(text: string): char {
    if '"' in text then '\'' else '"'
  }

  function Join(texts: seq<string>): string {
    if texts == [] then ""
    else if |texts| == 1 then texts[0]
    else texts[0] + (", " + Join(texts[1..]))
  }

  function Print(p: Pattern): string
    decreases p, 0
  {
    match p
    case Wildcard => "*"
    case EnumPattern(name) => ":" + name + ":"
    case StringLiteral(text) => [QuoteFor(text)] + text + [QuoteFor(text)]
    case NumberLiteral(n) => IntText(n)
    case BoolLiteral(b) => if b then "true" else "false"
    case Variable(name) => "$" + name
    case Pin(name) => "^" + name
    case ListOf(Empty) => "[]"
    case ListOf(HeadTail(head, tail)) => "[" + HeadTailText(Print(head), Print(tail)) + "]"
    case ListOf(Elements(patterns)) => "[" + Join(Texts(patterns)) + "]"
    case MapOf(entries) => "{" + Join(EntryTexts(entries)) + "}"
  }

  function HeadTailText(head: string, tail: string): string {
    head + (" | " + tail)
  }

  function Texts(patterns: seq<Pattern>): (texts: seq<string>)
    ensures |texts| == |patterns|
    decreases patterns, 1
  {
    if patterns == [] then [] else [Print(patterns[0])] + Texts(patterns[1..])
  }

  function EntryText(key: string, value: string): string {
    key + (": " + value)
  }

  function EntryTexts(entries: Fields): (texts: seq<string>)
    ensures |texts| == |entries|
    decreases entries, 1
  {
    if entries == [] then []
    else [EntryText(entries[0].key, Print(entries[0].pattern))] + EntryTexts(entries[1..])
  }

  /** Some quote character can enclose the text. */
  predicate Quotable(text: string) {
    !('"' in text && '\'' in text)
  }

  /** Names are identifiers, no element list is empty, and nested strings can be quoted. */
  ghost predicate Writable(u: Unicode, p: Pattern)
    decreases p, 0
  {
    match p
    case EnumPattern(name) => IsIdentifier(u, name)
    case Variable(name) => IsIdentifier(u, name)
    case Pin(name) => IsIdentifier(u, name)
    case ListOf(HeadTail(head, tail)) => WritableInside(u, head) && WritableInside(u, tail)
    case ListOf(Elements(patterns)) =>
      patterns != [] && forall i | 0 <= i < |patterns| :: WritableInside(u, patterns[i])
    case MapOf(entries) =>
      forall i | 0 <= i < |entries| :: IsIdentifier(u, entries[i].key) && WritableInside(u, entries[i].pattern)
    case _ => true
  }

  ghost predicate WritableInside(u: Unicode, p: Pattern)
    decreases p, 1
  {
    Writable(u, p) && (p.StringLiteral? ==> Quotable(p.text))
  }

  /** At each list the pipe finder sees the separator, or nothing where there is none. */
  predicate PipesFound(p: Pattern) {
    match p
    case ListOf(HeadTail(head, tail)) =>
      PipeFrom(HeadTailText(Print(head), Print(tail)), 0) == Some(|Print(head)| + 1) && PipesFound(head) &&
        PipesFound(tail)
    case ListOf(Elements(patterns)) =>
      PipeFrom(Join(Texts(patterns)), 0) == None && forall i | 0 <= i < |patterns| :: PipesFound(patterns[i])
    case MapOf(entries) => forall i | 0 <= i < |entries| :: PipesFound(entries[i].pattern)
    case _ => true
  }

  // Numbers.

  lemma {:induction false} DigitsRead(n: nat)
    ensures DigitsText(n) != [] && AllDigits(DigitsText(n)) && DigitsValue(DigitsText(n)) == n
  {
    var s := DigitsText(n);
    if n < 10 {
      assert s[..0] == [];
      assert DigitsValue(s[..0]) == 0;
    } else {
      DigitsRead(n / 10);
      assert s[..|s| - 1] == DigitsText(n / 10);
    }
  }

  lemma IntRead(n: i64)
    ensures IntText(n) != [] && ParseI64(IntText(n)) == Some(n)
    ensures forall c | c in IntText(n) :: IsDigit(c) || c == '-'
  {
    var s := IntText(n);
    if n < 0 {
      DigitsRead(-(n as int));
      assert s[1..] == DigitsText(-(n as int));
    } else {
      DigitsRead(n);
    }
  }

  lemma {:induction false} DigitsTextIsShortest(s: string)
    requires s != [] && AllDigits(s)
    ensures |DigitsText(DigitsValue(s))| <= |s|
  {
    if |s| == 1 {
      assert s[..0] == [];
      assert DigitsValue(s[..0]) == 0;
    } else {
      assert AllDigits(s[..|s| - 1]);
      DigitsTextIsShortest(s[..|s| - 1]);
    }
  }

  /** No decimal text of a number is shorter than the printed one. */
  lemma IntTextIsShortest(s: string)
    requires ParseI64(s).Some?
    ensures |IntText(ParseI64(s).value)| <= |s|
  {
    if s[0] == '-' || s[0] == '+' {
      DigitsTextIsShortest(s[1..]);
    } else {
      DigitsTextIsShortest(s);
    }
  }

  // Trimming.

  lemma TrimNothing(u: Unicode, s: string)
    requires s == [] || (!u.whitespace(s[0]) && !u.whitespace(s[|s| - 1]))
    ensures Trim(u, s) == s
  {
  }

  lemma TrimSpaceBefore(u: Unicode, s: string)
    requires u.whitespace(' ') && s != [] && !u.whitespace(s[0]) && !u.whitespace(s[|s| - 1])
    ensures Trim(u, " " + s) == s
  {
    assert (" " + s)[1..] == s;
    assert TrimStart(u, " " + s) == s;
  }

  lemma TrimSpaceAfter(u: Unicode, s: string)
    requires u.whitespace(' ') && s != [] && !u.whitespace(s[0]) && !u.whitespace(s[|s| - 1])
    ensures Trim(u, s + " ") == s
  {
    assert TrimStart(u, s + " ") == s + " ";
    assert (s + " ")[..|s + " "| - 1] == s;
    assert TrimEnd(u, s + " ") == TrimEnd(u, s) == s;
  }

  /** The text neither starts nor ends with white space. */
  ghost predicate Tight(u: Unicode, s: string) {
    s != [] && !u.whitespace(s[0]) && !u.whitespace(s[|s| - 1])
  }

  lemma IdentifierIsTight(u: Unicode, name: string)
    requires Lawful(u) && IsIdentifier(u, name)
    ensures Tight(u, name) && forall c | c in name :: u.alphanumeric(c) || c == '_'
  {
  }

  lemma IntTextIsTight(u: Unicode, n: i64)
    requires Lawful(u)
    ensures Tight(u, IntText(n))
  {
    IntRead(n);
    var s := IntText(n);
    assert s[0] in s && s[|s| - 1] in s;
  }

  lemma WordIsTight(u: Unicode, s: string)
    requires Lawful(u) && s != [] && IsPunctuation(s[0]) && IsPunctuation(s[|s| - 1])
    ensures Tight(u, s)
  {
  }

  lemma PrintIsTight(u: Unicode, p: Pattern)
    requires Lawful(u) && Writable(u, p)
    ensures Tight(u, Print(p))
  {
    var s := Print(p);
    match p {
      case Wildcard => WordIsTight(u, s);
      case EnumPattern(name) => WordIsTight(u, s);
      case StringLiteral(text) => WordIsTight(u, s);
      case NumberLiteral(n) => IntTextIsTight(u, n);
      case BoolLiteral(b) => assert u.alphabetic(s[0]) && u.alphabetic(s[|s| - 1]);
      case Variable(name) => IdentifierIsTight(u, name); assert s[|s| - 1] == name[|name| - 1];
      case Pin(name) => IdentifierIsTight(u, name); assert s[|s| - 1] == name[|name| - 1];
      case ListOf(_) => assert s[0] == '[' && s[|s| - 1] == ']'; WordIsTight(u, s);
      case MapOf(_) => assert s[0] == '{' && s[|s| - 1] == '}'; WordIsTight(u, s);
    }
  }

  // Splitting printed texts.

  predicate Plain(s: string) {
    forall i | 0 <= i < |s| :: !IsQuote(s[i]) && !Opens(s[i]) && !Closes(s[i]) && s[i] != ','
  }

  /** The splitter takes the text whole, at any depth. */
  ghost predicate Solid(t: string) {
    forall rest: string, depth: nat, current: string ::
      Split(t + rest, depth, None, current) == Split(rest, depth, None, current + t)
  }

  /** The splitter takes the text whole inside brackets. */
  ghost predicate SolidInside(t: string) {
    forall rest: string, depth: nat, current: string | depth > 0 ::
      Split(t + rest, depth, None, current) == Split(rest, depth, None, current + t)
  }

  lemma {:induction false} SplitPlain(x: string, rest: string, depth: nat, current: string)
    requires Plain(x)
    ensures Split(x + rest, depth, None, current) == Split(rest, depth, None, current + x)
  {
    if x == [] {
      assert x + rest == rest && current + x == current;
    } else {
      assert (x + rest)[1..] == x[1..] + rest;
      SplitPlain(x[1..], rest, depth, current + [x[0]]);
      assert current + [x[0]] + x[1..] == current + x;
    }
  }

  lemma PlainIsSolid(x: string)
    requires Plain(x)
    ensures Solid(x)
  {
    forall rest: string, depth: nat, current: string
      ensures Split(x + rest, depth, None, current) == Split(rest, depth, None, current + x)
    {
      SplitPlain(x, rest, depth, current);
    }
  }

  lemma {:induction false} SplitQuoted(x: string, quote: char, rest: string, depth: nat, current: string)
    requires quote !in x
    ensures Split(x + ([quote] + rest), depth, Some(quote), current) ==
      Split(rest, depth, None, current + (x + [quote]))
  {
    var s := x + ([quote] + rest);
    if x == [] {
      assert s[1..] == rest && x + [quote] == [quote];
    } else {
      assert s[1..] == x[1..] + ([quote] + rest);
      SplitQuoted(x[1..], quote, rest, depth, current + [x[0]]);
      assert current + [x[0]] + (x[1..] + [quote]) == current + (x + [quote]);
    }
  }

  lemma QuotedIsSolid(x: string, quote: char)
    requires IsQuote(quote) && quote !in x
    ensures Solid([quote] + x + [quote])
  {
    var t := [quote] + x + [quote];
    forall rest: string, depth: nat, current: string
      ensures Split(t + rest, depth, None, current) == Split(rest, depth, None, current + t)
    {
      assert (t + rest)[1..] == x + ([quote] + rest);
      SplitQuoted(x, quote, rest, depth, current + [quote]);
      assert current + [quote] + (x + [quote]) == current + t;
    }
  }

  lemma SolidConcat(a: string, b: string)
    requires Solid(a) && Solid(b)
    ensures Solid(a + b)
  {
    forall rest: string, depth: nat, current: string
      ensures Split((a + b) + rest, depth, None, current) == Split(rest, depth, None, current + (a + b))
    {
      assert (a + b) + rest == a + (b + rest) && current + (a + b) == (current + a) + b;
    }
  }

  lemma BracketsAreSolid(open: char, inner: string, close: char)
    requires Opens(open) && Closes(close) && SolidInside(inner)
    ensures Solid([open] + inner + [close])
  {
    var t := [open] + inner + [close];
    forall rest: string, depth: nat, current: string
      ensures Split(t + rest, depth, None, current) == Split(rest, depth, None, current + t)
    {
      var tail := [close] + rest;
      assert (t + rest)[1..] == inner + tail && tail[1..] == rest;
      assert Split(inner + tail, depth + 1, None, current + [open]) ==
        Split(tail, depth + 1, None, current + [open] + inner);
      assert current + [open] + inner + [close] == current + t;
    }
  }

  lemma {:induction false} JoinIsSolidInside(texts: seq<string>)
    requires forall i | 0 <= i < |texts| :: Solid(texts[i])
    ensures SolidInside(Join(texts))
  {
    if |texts| == 0 {
      PlainIsSolid("");
    } else if |texts| > 1 {
      JoinIsSolidInside(texts[1..]);
      var t := Join(texts);
      var tail := Join(texts[1..]);
      forall rest: string, depth: nat, current: string | depth > 0
        ensures Split(t + rest, depth, None, current) == Split(rest, depth, None, current + t)
      {
        var before := current + texts[0];
        assert t + rest == texts[0] + (", " + (tail + rest));
        assert (", " + (tail + rest))[1..] == " " + (tail + rest) && (" " + (tail + rest))[1..] == tail + rest;
        assert Split(", " + (tail + rest), depth, None, before) ==
          Split(tail + rest, depth, None, before + [','] + [' ']);
        assert before + [','] + [' '] + tail == current + t;
      }
    }
  }

  lemma {:induction false} TextsAt(patterns: seq<Pattern>, i: nat)
    requires i < |patterns|
    ensures Texts(patterns)[i] == Print(patterns[i])
  {
    if i > 0 { TextsAt(patterns[1..], i - 1); }
  }

  lemma {:induction false} EntryTextsAt(entries: Fields, i: nat)
    requires i < |entries|
    ensures EntryTexts(entries)[i] == EntryText(entries[i].key, Print(entries[i].pattern))
  {
    if i > 0 { EntryTextsAt(entries[1..], i - 1); }
  }

  lemma IdentifierIsPlain(u: Unicode, name: string)
    requires Lawful(u) && IsIdentifier(u, name)
    ensures Plain(name) && ':' !in name
  {
    IdentifierIsTight(u, name);
    forall i | 0 <= i < |name| ensures !IsQuote(name[i]) && !Opens(name[i]) && !Closes(name[i]) && name[i] != ',' {
      assert name[i] in name;
    }
  }

  lemma LeafIsPlain(u: Unicode, p: Pattern)
    requires Lawful(u) && Writable(u, p) && !p.StringLiteral? && !p.ListOf? && !p.MapOf?
    ensures Plain(Print(p))
  {
    match p {
      case EnumPattern(name) => IdentifierIsPlain(u, name);
      case Variable(name) => IdentifierIsPlain(u, name);
      case Pin(name) => IdentifierIsPlain(u, name);
      case NumberLiteral(n) =>
        IntRead(n);
        var s := IntText(n);
        forall i | 0 <= i < |s| ensures !IsQuote(s[i]) && !Opens(s[i]) && !Closes(s[i]) && s[i] != ',' {
          assert s[i] in s;
        }
      case _ =>
    }
  }

  lemma {:induction false} PrintIsSolid(u: Unicode, p: Pattern)
    requires Lawful(u) && WritableInside(u, p)
    ensures Solid(Print(p))
    decreases p
  {
    match p {
      case StringLiteral(text) => QuotedIsSolid(text, QuoteFor(text));
      case ListOf(Empty) =>
        PlainIsSolid("");
        BracketsAreSolid('[', "", ']');
        assert Print(p) == ['['] + "" + [']'];
      case ListOf(HeadTail(head, tail)) =>
        PrintIsSolid(u, head);
        PrintIsSolid(u, tail);
        PlainIsSolid(" | ");
        SolidConcat(" | ", Print(tail));
        SolidConcat(Print(head), " | " + Print(tail));
        BracketsAreSolid('[', HeadTailText(Print(head), Print(tail)), ']');
      case ListOf(Elements(patterns)) =>
        SolidTexts(u, patterns);
        JoinIsSolidInside(Texts(patterns));
        BracketsAreSolid('[', Join(Texts(patterns)), ']');
      case MapOf(entries) =>
        SolidEntryTexts(u, entries);
        JoinIsSolidInside(EntryTexts(entries));
        BracketsAreSolid('{', Join(EntryTexts(entries)), '}');
      case _ =>
        LeafIsPlain(u, p);
        PlainIsSolid(Print(p));
    }
  }

  lemma {:induction false} SolidTexts(u: Unicode, patterns: seq<Pattern>)
    requires Lawful(u) && forall i | 0 <= i < |patterns| :: WritableInside(u, patterns[i])
    ensures forall i | 0 <= i < |patterns| :: Solid(Texts(patterns)[i]) && Tight(u, Texts(patterns)[i])
    decreases patterns
  {
    forall i | 0 <= i < |patterns| ensures Solid(Texts(patterns)[i]) && Tight(u, Texts(patterns)[i]) {
      TextsAt(patterns, i);
      PrintIsSolid(u, patterns[i]);
      PrintIsTight(u, patterns[i]);
    }
  }

  lemma {:induction false} SolidEntryTexts(u: Unicode, entries: Fields)
    requires Lawful(u)
    requires forall i | 0 <= i < |entries| :: IsIdentifier(u, entries[i].key) && WritableInside(u, entries[i].pattern)
    ensures forall i | 0 <= i < |entries| :: Solid(EntryTexts(entries)[i]) && Tight(u, EntryTexts(entries)[i])
    decreases entries
  {
    forall i | 0 <= i < |entries| ensures Solid(EntryTexts(entries)[i]) && Tight(u, EntryTexts(entries)[i]) {
      var key, value := entries[i].key, Print(entries[i].pattern);
      EntryTextsAt(entries, i);
      PrintIsSolid(u, entries[i].pattern);
      PrintIsTight(u, entries[i].pattern);
      IdentifierIsPlain(u, key);
      IdentifierIsTight(u, key);
      PlainIsSolid(key);
      PlainIsSolid(": ");
      SolidConcat(": ", value);
      SolidConcat(key, ": " + value);
      assert EntryText(key, value)[0] == key[0];
    }
  }

  /** The pieces of a join: all but the first keep the space after the comma. */
  function Spaced(texts: seq<string>): (pieces: seq<string>)
    ensures |pieces| == |texts| && forall i | 0 <= i < |texts| :: pieces[i] == " " + texts[i]
  {
    if texts == [] then [] else [" " + texts[0]] + Spaced(texts[1..])
  }

  function Pieces(texts: seq<string>): seq<string>
    requires texts != []
  {
    [texts[0]] + Spaced(texts[1..])
  }

  lemma {:induction false} SplitJoin(texts: seq<string>, current: string)
    requires texts != [] && forall i | 0 <= i < |texts| :: Solid(texts[i]) && texts[i] != []
    ensures Split(Join(texts), 0, None, current) == [current + texts[0]] + Spaced(texts[1..])
  {
    var before := current + texts[0];
    if |texts| == 1 {
      assert texts[0] + [] == texts[0];
      assert Split(texts[0] + [], 0, None, current) == Split([], 0, None, before) == [before];
    } else {
      var tail := Join(texts[1..]);
      var comma := ", " + tail;
      assert Split(texts[0] + comma, 0, None, current) == Split(comma, 0, None, before);
      assert comma[1..] == " " + tail && (" " + tail)[1..] == tail;
      assert Split(comma, 0, None, before) == [before] + Split(" " + tail, 0, None, []);
      assert [] + [' '] == " ";
      assert Split(" " + tail, 0, None, []) == Split(tail, 0, None, " ");
      SplitJoin(texts[1..], " ");
      assert texts[1..][1..] == texts[2..] && Spaced(texts[1..]) == [" " + texts[1]] + Spaced(texts[2..]);
    }
  }

  lemma JoinSplits(u: Unicode, texts: seq<string>)
    requires Lawful(u) && texts != [] && forall i | 0 <= i < |texts| :: Solid(texts[i]) && Tight(u, texts[i])
    ensures Split(Join(texts), 0, None, []) == Pieces(texts)
  {
    SplitJoin(texts, []);
    assert [] + texts[0] == texts[0];
  }

  lemma PieceTrims(u: Unicode, texts: seq<string>, i: nat)
    requires Lawful(u) && i < |texts| && Tight(u, texts[i])
    ensures Trim(u, Pieces(texts)[i]) == texts[i]
  {
    if i == 0 {
      TrimNothing(u, texts[0]);
    } else {
      assert Pieces(texts)[i] == Spaced(texts[1..])[i - 1] == " " + texts[i];
      TrimSpaceBefore(u, texts[i]);
    }
  }

  lemma {:induction false} JoinIsTight(u: Unicode, texts: seq<string>)
    requires texts != [] && forall i | 0 <= i < |texts| :: Tight(u, texts[i])
    ensures Tight(u, Join(texts))
  {
    if |texts| > 1 {
      JoinIsTight(u, texts[1..]);
      var s, tail := Join(texts), Join(texts[1..]);
      assert s[0] == texts[0][0] && s[|s| - 1] == tail[|tail| - 1];
    }
  }

  // What a text weighs: its characters other than white space and commas.

  function Weight(u: Unicode, s: string): nat {
    if s == [] then 0 else (if u.whitespace(s[0]) || s[0] == ',' then 0 else 1) + Weight(u, s[1..])
  }

  function WeightOfAll(u: Unicode, pieces: seq<string>): nat {
    if pieces == [] then 0 else Weight(u, pieces[0]) + WeightOfAll(u, pieces[1..])
  }

  lemma {:induction false} WeightConcat(u: Unicode, a: string, b: string)
    ensures Weight(u, a + b) == Weight(u, a) + Weight(u, b)
  {
    if a == [] {
      assert a + b == b;
    } else {
      WeightConcat(u, a[1..], b);
      assert (a + b)[1..] == a[1..] + b;
    }
  }

  lemma {:induction false} WeightAtMostLength(u: Unicode, s: string)
    ensures Weight(u, s) <= |s|
    ensures (forall i | 0 <= i < |s| :: !u.whitespace(s[i]) && s[i] != ',') ==> Weight(u, s) == |s|
  {
    if s != [] {
      WeightAtMostLength(u, s[1..]);
    }
  }

  lemma {:induction false} WeightTrimStart(u: Unicode, s: string)
    ensures Weight(u, TrimStart(u, s)) == Weight(u, s)
  {
    if s != [] && u.whitespace(s[0]) {
      WeightTrimStart(u, s[1..]);
    }
  }

  lemma {:induction false} WeightTrimEnd(u: Unicode, s: string)
    ensures Weight(u, TrimEnd(u, s)) == Weight(u, s)
  {
    if s != [] && u.whitespace(s[|s| - 1]) {
      var front := s[..|s| - 1];
      WeightTrimEnd(u, front);
      WeightConcat(u, front, [s[|s| - 1]]);
      assert s == front + [s[|s| - 1]];
    }
  }

  lemma WeightTrim(u: Unicode, s: string)
    ensures Weight(u, Trim(u, s)) == Weight(u, s)
  {
    WeightTrimStart(u, s);
    WeightTrimEnd(u, TrimStart(u, s));
  }

  /** A text is at least as heavy as the part before a position, the character there and the part after it. */
  lemma WeightSplitAt(u: Unicode, s: string, i: nat)
    requires i < |s|
    ensures Weight(u, s) == Weight(u, s[..i]) + Weight(u, [s[i]]) + Weight(u, s[i + 1..])
  {
    assert s == s[..i] + ([s[i]] + s[i + 1..]);
    WeightConcat(u, s[..i], [s[i]] + s[i + 1..]);
    WeightConcat(u, [s[i]], s[i + 1..]);
  }

  lemma WeightOne(u: Unicode, c: char)
    ensures Weight(u, [c]) == if u.whitespace(c) || c == ',' then 0 else 1
  {
    assert Weight(u, [c][1..]) == 0;
  }

  /** Splitting loses only commas. */
  lemma {:induction false} SplitWeight(u: Unicode, s: string, depth: int, quote: Option<char>, current: string)
    ensures WeightOfAll(u, Split(s, depth, quote, current)) == Weight(u, current) + Weight(u, s)
    decreases |s|
  {
    if s != [] {
      var c := s[0];
      WeightConcat(u, current, [c]);
      WeightOne(u, c);
      if quote.Some? {
        SplitWeight(u, s[1..], depth, if c == quote.value then None else quote, current + [c]);
      } else if IsQuote(c) {
        SplitWeight(u, s[1..], depth, Some(c), current + [c]);
      } else if Opens(c) {
        SplitWeight(u, s[1..], depth + 1, None, current + [c]);
      } else if Closes(c) {
        SplitWeight(u, s[1..], depth - 1, None, current + [c]);
      } else if c == ',' && depth == 0 {
        SplitWeight(u, s[1..], depth, None, []);
      } else {
        SplitWeight(u, s[1..], depth, None, current + [c]);
      }
    }
  }

  lemma {:induction false} JoinWeight(u: Unicode, texts: seq<string>)
    requires u.whitespace(' ')
    ensures Weight(u, Join(texts)) == WeightOfAll(u, texts)
  {
    if |texts| > 1 {
      JoinWeight(u, texts[1..]);
      WeightConcat(u, texts[0], ", " + Join(texts[1..]));
      WeightConcat(u, ", ", Join(texts[1..]));
      assert Weight(u, ", ") == 0;
    }
  }

  /** A text in brackets. */
  lemma BracketWeight(u: Unicode, open: char, inner: string, close: char)
    requires Lawful(u) && IsPunctuation(open) && IsPunctuation(close) && open != ',' && close != ','
    ensures Weight(u, [open] + inner + [close]) == 2 + Weight(u, inner)
  {
    WeightConcat(u, [open] + inner, [close]);
    WeightConcat(u, [open], inner);
    WeightOne(u, open);
    WeightOne(u, close);
  }

  lemma InnerWeight(u: Unicode, s: string)
    requires Lawful(u) && |s| >= 2 && IsPunctuation(s[0]) && IsPunctuation(s[|s| - 1]) && s[0] != ',' &&
      s[|s| - 1] != ','
    ensures Weight(u, s) == 2 + Weight(u, Inner(s))
  {
    assert s == [s[0]] + Inner(s) + [s[|s| - 1]];
    BracketWeight(u, s[0], Inner(s), s[|s| - 1]);
  }

  // Reading a text never makes it heavier to print.

  lemma PrefixedNameWeight(u: Unicode, prefix: char, s: string)
    requires Lawful(u) && IsPunctuation(prefix) && prefix != ',' && s != [] && s[0] == prefix
    ensures Weight(u, [prefix] + Trim(u, s[1..])) == Weight(u, s)
  {
    WeightTrim(u, s[1..]);
    WeightConcat(u, [prefix], Trim(u, s[1..]));
    WeightConcat(u, [prefix], s[1..]);
    assert s == [prefix] + s[1..];
  }

  lemma NumberWeight(u: Unicode, s: string)
    requires Lawful(u) && ParseI64(s).Some?
    ensures Weight(u, IntText(ParseI64(s).value)) <= Weight(u, s)
  {
    var n := ParseI64(s).value;
    IntTextIsShortest(s);
    WeightAtMostLength(u, IntText(n));
    var digits := if s[0] == '-' || s[0] == '+' then s[1..] else s;
    forall i | 0 <= i < |s| ensures !u.whitespace(s[i]) && s[i] != ',' {
      if i > 0 || digits == s {
        var k := if digits == s then i else i - 1;
        assert IsDigit(digits[k]) && digits[k] == s[i];
      }
    }
    WeightAtMostLength(u, s);
  }

  /** The texts that are neither names nor brackets. */
  lemma LiteralWeight(u: Unicode, s: string)
    requires Lawful(u) && s != [] && Trim(u, s) == s && ParsePattern(u, s).Parsed?
    requires !Enclosed(s, '[', ']') && !Enclosed(s, '{', '}') && s[0] != '$' && s[0] != '^'
    ensures Weight(u, Print(ParsePattern(u, s).value)) <= Weight(u, s)
  {
    if s == "*" || s == "_" {
      WeightOne(u, s[0]);
      WeightOne(u, '*');
    } else if Enclosed(s, ':', ':') {
      assert s == ":" + Inner(s) + ":";
    } else if Enclosed(s, '"', '"') || Enclosed(s, '\'', '\'') {
      InnerWeight(u, s);
      BracketWeight(u, QuoteFor(Inner(s)), Inner(s), QuoteFor(Inner(s)));
    } else if s != "true" && s != "false" {
      NumberWeight(u, s);
    }
  }

  lemma {:induction false} TrimTwice(u: Unicode, s: string)
    ensures Trim(u, Trim(u, s)) == Trim(u, s)
  {
    TrimStartEnds(u, s);
    var t := TrimStart(u, s);
    TrimEndEnds(u, t);
  }

  lemma {:induction false} TrimStartEnds(u: Unicode, s: string)
    ensures TrimStart(u, s) != [] ==> !u.whitespace(TrimStart(u, s)[0])
  {
    if s != [] && u.whitespace(s[0]) { TrimStartEnds(u, s[1..]); }
  }

  lemma {:induction false} TrimEndEnds(u: Unicode, s: string)
    ensures var t := TrimEnd(u, s); t != [] ==> t[0] == s[0] && !u.whitespace(t[|t| - 1])
  {
    if s != [] && u.whitespace(s[|s| - 1]) { TrimEndEnds(u, s[..|s| - 1]); }
  }

  lemma ParseTrims(u: Unicode, input: string)
    ensures ParsePattern(u, Trim(u, input)) == ParsePattern(u, input)
  {
    TrimTwice(u, input);
  }

  lemma NameWeight(u: Unicode, s: string)
    requires Lawful(u) && s != [] && Trim(u, s) == s && ParsePattern(u, s).Parsed? && (s[0] == '$' || s[0] == '^')
    ensures Weight(u, Print(ParsePattern(u, s).value)) <= Weight(u, s)
  {
    hide Weight, Trim, IsIdentifier;
    PrefixedNameWeight(u, s[0], s);
    assert Print(ParsePattern(u, s).value) == [s[0]] + Trim(u, s[1..]) by {
      assert !AllDigits(s) by { assert !IsDigit(s[0]); }
    }
  }

  lemma {:induction false} ParsedWeight(u: Unicode, input: string)
    requires Lawful(u) && ParsePattern(u, input).Parsed?
    ensures Weight(u, Print(ParsePattern(u, input).value)) <= Weight(u, input)
    decreases |input|, 3
  {
    var s := Trim(u, input);
    WeightTrim(u, input);
    TrimTwice(u, input);
    ParseTrims(u, input);
    if Enclosed(s, '[', ']') {
      NotALiteral(u, s);
      ParsedListWeight(u, s);
    } else if Enclosed(s, '{', '}') {
      NotALiteral(u, s);
      ParsedMapWeight(u, s);
    } else if s[0] == '$' || s[0] == '^' {
      NameWeight(u, s);
    } else {
      LiteralWeight(u, s);
    }
  }

  /** A bracketed text goes to the list or the map parser. */
  lemma NotALiteral(u: Unicode, s: string)
    requires Trim(u, s) == s
    ensures Enclosed(s, '[', ']') ==> ParsePattern(u, s) == ParseList(u, s)
    ensures Enclosed(s, '{', '}') ==> ParsePattern(u, s) == ParseMap(u, s)
  {
    if s != [] && Opens(s[0]) {
      assert !AllDigits(s) by { assert !IsDigit(s[0]); }
    }
  }

  lemma PartsWeight(u: Unicode, inner: string, i: nat, head: Pattern, tail: Pattern)
    requires Lawful(u) && i < |inner| && inner[i] == '|'
    requires Weight(u, Print(head)) <= Weight(u, inner[..i]) && Weight(u, Print(tail)) <= Weight(u, inner[i + 1..])
    ensures Weight(u, Print(ListOf(HeadTail(head, tail)))) <= 2 + Weight(u, inner)
  {
    WeightSplitAt(u, inner, i);
    WeightOne(u, '|');
    PrintedHeadTailWeight(u, head, tail);
  }

  lemma {:induction false} ParsedPartWeight(u: Unicode, part: string, n: nat)
    requires Lawful(u) && |part| < n && ParsePattern(u, Trim(u, part)).Parsed?
    ensures Weight(u, Print(ParsePattern(u, Trim(u, part)).value)) <= Weight(u, part)
    decreases n, 0
  {
    WeightTrim(u, part);
    ParsedWeight(u, Trim(u, part));
  }

  lemma {:induction false} ParsedPartsWeight(u: Unicode, inner: string, i: nat)
    requires Lawful(u) && i < |inner| && inner[i] == '|'
    requires ParsePattern(u, Trim(u, inner[..i])).Parsed? && ParsePattern(u, Trim(u, inner[i + 1..])).Parsed?
    ensures var h, t := ParsePattern(u, Trim(u, inner[..i])).value, ParsePattern(u, Trim(u, inner[i + 1..])).value;
      Weight(u, Print(ListOf(HeadTail(h, t)))) <= 2 + Weight(u, inner)
    decreases |inner|, 1
  {
    ParsedPartWeight(u, inner[..i], |inner|);
    ParsedPartWeight(u, inner[i + 1..], |inner|);
    PartsWeight(u, inner, i, ParsePattern(u, Trim(u, inner[..i])).value,
      ParsePattern(u, Trim(u, inner[i + 1..])).value);
  }

  lemma EmptyListWeight(u: Unicode)
    requires Lawful(u)
    ensures Weight(u, Print(ListOf(Empty))) == 2
  {
    BracketWeight(u, '[', "", ']');
    assert Print(ListOf(Empty)) == ['['] + "" + [']'];
  }

  lemma {:induction false} ParsedElementsWeight(u: Unicode, inner: string, n: nat)
    requires Lawful(u) && |inner| < n
    requires forall piece | piece in Split(inner, 0, None, []) :: |piece| < n
    requires ParsePieces(u, Split(inner, 0, None, []), n).Parsed?
    ensures Weight(u, Print(ListOf(Elements(ParsePieces(u, Split(inner, 0, None, []), n).value))))
      <= 2 + Weight(u, inner)
    decreases n, 1
  {
    var pieces := Split(inner, 0, None, []);
    ParsedPiecesWeight(u, pieces, n);
    SplitWeight(u, inner, 0, None, []);
    PrintedElementsWeight(u, ParsePieces(u, pieces, n).value);
  }

  lemma {:induction false} ParsedPipedWeight(u: Unicode, s: string, inner: string, i: nat, p: Pattern)
    requires Lawful(u) && |s| >= 2 && inner == Trim(u, Inner(s)) && inner != [] && PipeFrom(inner, 0) == Some(i)
    requires ParseList(u, s) == Parsed(p)
    ensures Weight(u, Print(p)) <= 2 + Weight(u, inner)
    decreases |s|, 1
  {
    ParsedPartsWeight(u, inner, i);
  }

  lemma {:induction false} ParsedPlainWeight(u: Unicode, s: string, inner: string, p: Pattern)
    requires Lawful(u) && |s| >= 2 && inner == Trim(u, Inner(s)) && inner != [] && PipeFrom(inner, 0) == None
    requires ParseList(u, s) == Parsed(p)
    ensures Weight(u, Print(p)) <= 2 + Weight(u, inner)
    decreases |s|, 1
  {
    hide Weight, Trim;
    PiecesAreShort(inner, 0, None, []);
    ParsedElementsWeight(u, inner, |s| - 1);
  }

  lemma {:induction false} ParsedListWeight(u: Unicode, s: string)
    requires Lawful(u) && Enclosed(s, '[', ']') && |s| >= 2 && ParseList(u, s).Parsed?
    ensures Weight(u, Print(ParseList(u, s).value)) <= Weight(u, s)
    decreases |s|, 2
  {
    var inner := Trim(u, Inner(s));
    InnerWeight(u, s);
    WeightTrim(u, Inner(s));
    var at := PipeFrom(inner, 0);
    if inner == [] {
      EmptyListWeight(u);
    } else if at.Some? {
      ParsedPipedWeight(u, s, inner, at.value, ParseList(u, s).value);
    } else {
      ParsedPlainWeight(u, s, inner, ParseList(u, s).value);
    }
  }

  lemma HeadTailWeight(u: Unicode, head: string, tail: string)
    requires Lawful(u)
    ensures Weight(u, HeadTailText(head, tail)) == Weight(u, head) + 1 + Weight(u, tail)
  {
    WeightConcat(u, head, " | " + tail);
    WeightConcat(u, " | ", tail);
    assert " | " == [' '] + (['|'] + [' ']);
    WeightConcat(u, [' '], ['|'] + [' ']);
    WeightConcat(u, ['|'], [' ']);
    WeightOne(u, ' ');
    WeightOne(u, '|');
  }

  lemma {:induction false} ParsedPiecesWeight(u: Unicode, pieces: seq<string>, n: nat)
    requires Lawful(u) && forall piece | piece in pieces :: |piece| < n
    requires ParsePieces(u, pieces, n).Parsed?
    ensures WeightOfAll(u, Texts(ParsePieces(u, pieces, n).value)) <= WeightOfAll(u, pieces)
    decreases n, 0, |pieces|
  {
    if pieces != [] {
      WeightTrim(u, pieces[0]);
      ParsedWeight(u, Trim(u, pieces[0]));
      ParsedPiecesWeight(u, pieces[1..], n);
    }
  }

  lemma {:induction false} ParsedMapWeight(u: Unicode, s: string)
    requires Lawful(u) && Enclosed(s, '{', '}') && |s| >= 2 && ParseMap(u, s).Parsed?
    ensures Weight(u, Print(ParseMap(u, s).value)) <= Weight(u, s)
    decreases |s|, 1
  {
    var inner := Trim(u, Inner(s));
    InnerWeight(u, s);
    WeightTrim(u, Inner(s));
    if inner == [] {
      PrintedMapWeight(u, []);
    } else {
      var pieces := Split(inner, 0, None, []);
      PiecesAreShort(inner, 0, None, []);
      ParsedEntriesWeight(u, pieces, |s| - 1);
      SplitWeight(u, inner, 0, None, []);
      PrintedMapWeight(u, ParseEntries(u, pieces, |s| - 1).value);
    }
  }

  lemma PrintedMapWeight(u: Unicode, entries: Fields)
    requires Lawful(u)
    ensures Weight(u, Print(MapOf(entries))) == 2 + WeightOfAll(u, EntryTexts(entries))
  {
    JoinWeight(u, EntryTexts(entries));
    BracketWeight(u, '{', Join(EntryTexts(entries)), '}');
  }

  lemma PrintedElementsWeight(u: Unicode, patterns: seq<Pattern>)
    requires Lawful(u)
    ensures Weight(u, Print(ListOf(Elements(patterns)))) == 2 + WeightOfAll(u, Texts(patterns))
  {
    JoinWeight(u, Texts(patterns));
    BracketWeight(u, '[', Join(Texts(patterns)), ']');
  }

  lemma PrintedHeadTailWeight(u: Unicode, head: Pattern, tail: Pattern)
    requires Lawful(u)
    ensures Weight(u, Print(ListOf(HeadTail(head, tail)))) == 3 + Weight(u, Print(head)) + Weight(u, Print(tail))
  {
    HeadTailWeight(u, Print(head), Print(tail));
    BracketWeight(u, '[', HeadTailText(Print(head), Print(tail)), ']');
  }

  lemma {:induction false} ParsedEntriesWeight(u: Unicode, pieces: seq<string>, n: nat)
    requires Lawful(u) && forall piece | piece in pieces :: |piece| < n
    requires ParseEntries(u, pieces, n).Parsed?
    ensures WeightOfAll(u, EntryTexts(ParseEntries(u, pieces, n).value)) <= WeightOfAll(u, pieces)
    decreases n, 0, |pieces|
  {
    if pieces != [] {
      ParsedEntryWeight(u, pieces[0]);
      ParsedEntriesWeight(u, pieces[1..], n);
    }
  }

  lemma {:induction false} ParsedEntryWeight(u: Unicode, piece: string)
    requires Lawful(u) && ParseEntry(u, piece).Parsed?
    ensures var f := ParseEntry(u, piece).value; Weight(u, EntryText(f.key, Print(f.pattern))) <= Weight(u, piece)
    decreases |piece|, 3
  {
    var pair := Trim(u, piece);
    var colon := IndexOf(pair, ':');
    var f := ParseEntry(u, piece).value;
    WeightTrim(u, piece);
    IndexOfFinds(pair, ':');
    WeightSplitAt(u, pair, colon);
    WeightTrim(u, pair[..colon]);
    WeightTrim(u, pair[colon + 1..]);
    ParsedWeight(u, Trim(u, pair[colon + 1..]));
    WeightConcat(u, f.key, ": " + Print(f.pattern));
    WeightConcat(u, ": ", Print(f.pattern));
    assert ": " == [':'] + [' '];
    WeightConcat(u, [':'], [' ']);
    WeightOne(u, ':');
    WeightOne(u, ' ');
  }

  lemma {:induction false} IndexOfFinds(s: string, c: char)
    ensures var i := IndexOf(s, c);
      (forall k | 0 <= k < i :: s[k] != c) && (i < |s| ==> s[i] == c)
  {
    if s != [] && s[0] != c {
      IndexOfFinds(s[1..], c);
    }
  }

  /** A text lighter than a printed pattern is not read as that pattern. */
  lemma TooLight(u: Unicode, s: string, p: Pattern)
    requires Lawful(u) && Weight(u, s) < Weight(u, Print(p))
    ensures ParsePattern(u, s) != Parsed(p)
  {
    if ParsePattern(u, s).Parsed? {
      ParsedWeight(u, s);
    }
  }
}
