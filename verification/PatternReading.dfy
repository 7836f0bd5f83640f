/**
 Reading printed pieces back.

 Leaves are read back whatever they hold.  A list or a map is read back exactly when its parts are and, for a
 list, when the pipe finder, which does not know about quotes, sees the separator and nothing else.  Each lemma
 takes one step of the parser on a printed text: trimming, taking the brackets off, cutting at the pipe or at
 the commas, cutting an entry at its colon.
 */
module PatternReading {
  import opened Wrappers
  import opened Values
  import opened Patterns
  import opened PatternParser
  import opened PatternPrinter

  /** Patterns that are not bracketed are read back whatever they hold. */
  lemma LeafReads(u: Unicode, p: Pattern)
    requires Lawful(u) && Writable(u, p) && !p.ListOf? && !p.MapOf?
    ensures ParsePattern(u, Print(p)) == Parsed(p)
  {
    match p {
      case EnumPattern(name) => EnumReads(u, name);
      case StringLiteral(text) => StringReads(u, text);
      case NumberLiteral(n) => NumberReads(u, n);
      case Variable(name) => VariableReads(u, name);
      case Pin(name) => PinReads(u, name);
      case _ =>
        PrintIsTight(u, p);
        TrimNothing(u, Print(p));
    }
  }

  lemma EnumReads(u: Unicode, name: string)
    requires Lawful(u) && IsIdentifier(u, name)
    ensures ParsePattern(u, ":" + name + ":") == Parsed(EnumPattern(name))
  {
    var s := ":" + name + ":";
    PrintIsTight(u, EnumPattern(name));
    TrimNothing(u, s);
    assert Inner(s) == name;
  }

  lemma StringReads(u: Unicode, text: string)
    requires Lawful(u)
    ensures ParsePattern(u, [QuoteFor(text)] + text + [QuoteFor(text)]) == Parsed(StringLiteral(text))
  {
    var s := [QuoteFor(text)] + text + [QuoteFor(text)];
    PrintIsTight(u, StringLiteral(text));
    TrimNothing(u, s);
    assert Inner(s) == text;
  }

  lemma NumberReads(u: Unicode, n: i64)
    requires Lawful(u)
    ensures ParsePattern(u, IntText(n)) == Parsed(NumberLiteral(n))
  {
    var s := IntText(n);
    IntRead(n);
    IntTextIsTight(u, n);
    TrimNothing(u, s);
    assert s[0] in s;
  }

  lemma DollarText(u: Unicode, s: string)
    requires s != [] && s[0] == '$' && Trim(u, s) == s
    ensures var name := Trim(u, s[1..]);
      ParsePattern(u, s) == if IsIdentifier(u, name) then Parsed(Variable(name)) else Failed(InvalidVariableName)
  {
    assert !AllDigits(s) by { assert !IsDigit(s[0]); }
  }

  lemma CaretText(u: Unicode, s: string)
    requires s != [] && s[0] == '^' && Trim(u, s) == s
    ensures var name := Trim(u, s[1..]);
      ParsePattern(u, s) == if IsIdentifier(u, name) then Parsed(Pin(name)) else Failed(InvalidPinName)
  {
    assert !AllDigits(s) by { assert !IsDigit(s[0]); }
  }

  lemma VariableReads(u: Unicode, name: string)
    requires Lawful(u) && IsIdentifier(u, name)
    ensures ParsePattern(u, "$" + name) == Parsed(Variable(name))
  {
    var s := "$" + name;
    IdentifierIsTight(u, name);
    PrintIsTight(u, Variable(name));
    TrimNothing(u, name);
    TrimNothing(u, s);
    DollarText(u, s);
    assert s[1..] == name;
  }

  lemma PinReads(u: Unicode, name: string)
    requires Lawful(u) && IsIdentifier(u, name)
    ensures ParsePattern(u, "^" + name) == Parsed(Pin(name))
  {
    var s := "^" + name;
    IdentifierIsTight(u, name);
    PrintIsTight(u, Pin(name));
    TrimNothing(u, name);
    TrimNothing(u, s);
    CaretText(u, s);
    assert s[1..] == name;
  }

  // Lists and maps whose pieces are found.

  lemma {:induction false} PiecesAreRead(u: Unicode, pieces: seq<string>, n: nat, patterns: seq<Pattern>)
    requires |pieces| == |patterns| && forall piece | piece in pieces :: |piece| < n
    requires forall i | 0 <= i < |pieces| :: ParsePattern(u, Trim(u, pieces[i])) == Parsed(patterns[i])
    ensures ParsePieces(u, pieces, n) == Parsed(patterns)
  {
    hide ParsePattern, Trim;
    if pieces != [] {
      PiecesAreRead(u, pieces[1..], n, patterns[1..]);
      assert ParsePattern(u, Trim(u, pieces[0])) == Parsed(patterns[0]);
      assert patterns == [patterns[0]] + patterns[1..];
    }
  }

  lemma {:induction false} ReadPieceAt(u: Unicode, pieces: seq<string>, n: nat, i: nat)
    requires i < |pieces| && (forall piece | piece in pieces :: |piece| < n) && ParsePieces(u, pieces, n).Parsed?
    ensures |ParsePieces(u, pieces, n).value| == |pieces|
    ensures ParsePattern(u, Trim(u, pieces[i])) == Parsed(ParsePieces(u, pieces, n).value[i])
  {
    hide ParsePattern, Trim;
    if i > 0 {
      ReadPieceAt(u, pieces[1..], n, i - 1);
    } else if |pieces| > 1 {
      ReadPieceAt(u, pieces[1..], n, 0);
    } else {
      assert ParsePieces(u, pieces[1..], n) == Parsed([]);
    }
  }

  lemma PiecesRead(u: Unicode, pieces: seq<string>, n: nat, patterns: seq<Pattern>)
    requires |pieces| == |patterns| && forall piece | piece in pieces :: |piece| < n
    ensures ParsePieces(u, pieces, n) == Parsed(patterns)
      <==> forall i | 0 <= i < |pieces| :: ParsePattern(u, Trim(u, pieces[i])) == Parsed(patterns[i])
  {
    if ParsePieces(u, pieces, n) == Parsed(patterns) {
      forall i | 0 <= i < |pieces| ensures ParsePattern(u, Trim(u, pieces[i])) == Parsed(patterns[i]) {
        ReadPieceAt(u, pieces, n, i);
      }
    } else if forall i | 0 <= i < |pieces| :: ParsePattern(u, Trim(u, pieces[i])) == Parsed(patterns[i]) {
      PiecesAreRead(u, pieces, n, patterns);
    }
  }

  lemma EntriesStep(u: Unicode, pieces: seq<string>, n: nat, first: Field, rest: Fields)
    requires pieces != [] && forall piece | piece in pieces :: |piece| < n
    requires ParseEntry(u, pieces[0]) == Parsed(first) && ParseEntries(u, pieces[1..], n) == Parsed(rest)
    ensures ParseEntries(u, pieces, n) == Parsed([first] + rest)
  {
  }

  lemma {:induction false} EntriesAreRead(u: Unicode, pieces: seq<string>, n: nat, entries: Fields)
    requires |pieces| == |entries| && forall piece | piece in pieces :: |piece| < n
    requires forall i | 0 <= i < |pieces| :: ParseEntry(u, pieces[i]) == Parsed(entries[i])
    ensures ParseEntries(u, pieces, n) == Parsed(entries)
  {
    if pieces != [] {
      EntriesAreRead(u, pieces[1..], n, entries[1..]);
      EntriesStep(u, pieces, n, entries[0], entries[1..]);
      assert entries == [entries[0]] + entries[1..];
    }
  }

  lemma {:induction false} EntryCount(u: Unicode, pieces: seq<string>, n: nat)
    requires (forall piece | piece in pieces :: |piece| < n) && ParseEntries(u, pieces, n).Parsed?
    ensures |ParseEntries(u, pieces, n).value| == |pieces|
  {
    if pieces != [] {
      EntryCount(u, pieces[1..], n);
    }
  }

  lemma {:induction false} ReadEntryAt(u: Unicode, pieces: seq<string>, n: nat, i: nat)
    requires i < |pieces| && (forall piece | piece in pieces :: |piece| < n) && ParseEntries(u, pieces, n).Parsed?
    ensures |ParseEntries(u, pieces, n).value| == |pieces|
    ensures ParseEntry(u, pieces[i]) == Parsed(ParseEntries(u, pieces, n).value[i])
  {
    if i > 0 {
      ReadEntryAt(u, pieces[1..], n, i - 1);
    } else {
      EntryCount(u, pieces[1..], n);
    }
  }

  lemma EntriesRead(u: Unicode, pieces: seq<string>, n: nat, entries: Fields)
    requires |pieces| == |entries| && forall piece | piece in pieces :: |piece| < n
    ensures ParseEntries(u, pieces, n) == Parsed(entries)
      <==> forall i | 0 <= i < |pieces| :: ParseEntry(u, pieces[i]) == Parsed(entries[i])
  {
    if ParseEntries(u, pieces, n) == Parsed(entries) {
      forall i | 0 <= i < |pieces| ensures ParseEntry(u, pieces[i]) == Parsed(entries[i]) {
        ReadEntryAt(u, pieces, n, i);
      }
    } else if forall i | 0 <= i < |pieces| :: ParseEntry(u, pieces[i]) == Parsed(entries[i]) {
      EntriesAreRead(u, pieces, n, entries);
    }
  }

  lemma {:induction false} IndexOfIs(s: string, c: char, i: nat)
    requires i < |s| && s[i] == c && forall k | 0 <= k < i :: s[k] != c
    ensures IndexOf(s, c) == i
  {
    if i > 0 {
      IndexOfIs(s[1..], c, i - 1);
    }
  }

  lemma EntryCuts(u: Unicode, key: string, value: string)
    requires Lawful(u) && IsIdentifier(u, key) && Tight(u, value)
    ensures var pair := EntryText(key, value);
      IndexOf(pair, ':') == |key| && Trim(u, pair[..|key|]) == key && Trim(u, pair[|key| + 1..]) == value
  {
    var pair := EntryText(key, value);
    IdentifierIsPlain(u, key);
    IdentifierIsTight(u, key);
    forall k | 0 <= k < |key| ensures pair[k] != ':' { assert pair[k] == key[k] && key[k] in key; }
    IndexOfIs(pair, ':', |key|);
    assert pair[..|key|] == key && pair[|key| + 1..] == " " + value;
    TrimNothing(u, key);
    TrimSpaceBefore(u, value);
  }

  /** A map entry is read back exactly when its pattern is. */
  lemma EntryReads(u: Unicode, f: Field, piece: string)
    requires Lawful(u) && IsIdentifier(u, f.key) && Writable(u, f.pattern)
    requires Trim(u, piece) == EntryText(f.key, Print(f.pattern))
    ensures ParseEntry(u, piece) == Parsed(f) <==> ParsePattern(u, Print(f.pattern)) == Parsed(f.pattern)
  {
    PrintIsTight(u, f.pattern);
    EntryCuts(u, f.key, Print(f.pattern));
  }

  lemma BracketedText(u: Unicode, open: char, inner: string, close: char)
    requires Lawful(u) && Tight(u, inner) && IsPunctuation(open) && IsPunctuation(close)
    ensures var s := [open] + inner + [close];
      Trim(u, s) == s && Inner(s) == inner && Trim(u, Inner(s)) == inner
  {
    var s := [open] + inner + [close];
    TrimNothing(u, s);
    assert Inner(s) == inner;
    TrimNothing(u, inner);
  }

  lemma ListText(u: Unicode, inner: string)
    requires Lawful(u) && Tight(u, inner)
    ensures var s := "[" + inner + "]";
      ParsePattern(u, s) == ParseList(u, s) && Trim(u, Inner(s)) == inner
  {
    BracketedText(u, '[', inner, ']');
    NotALiteral(u, "[" + inner + "]");
  }

  lemma MapText(u: Unicode, inner: string)
    requires Lawful(u) && Tight(u, inner)
    ensures var s := "{" + inner + "}";
      ParsePattern(u, s) == ParseMap(u, s) && Trim(u, Inner(s)) == inner
  {
    BracketedText(u, '{', inner, '}');
    NotALiteral(u, "{" + inner + "}");
  }

  /** The list parser on a tight text without a separator pipe reads its pieces. */
  lemma ListOfPieces(u: Unicode, inner: string, pieces: seq<string>, patterns: seq<Pattern>)
    requires Lawful(u) && Tight(u, inner) && PipeFrom(inner, 0) == None && Split(inner, 0, None, []) == pieces
    requires |pieces| == |patterns|
    ensures ParsePattern(u, "[" + inner + "]") == Parsed(ListOf(Elements(patterns)))
      <==> forall i | 0 <= i < |pieces| :: ParsePattern(u, Trim(u, pieces[i])) == Parsed(patterns[i])
  {
    hide ParsePattern, ParsePieces, PipeFrom, Split;
    ListText(u, inner);
    PiecesAreShort(inner, 0, None, []);
    PiecesRead(u, pieces, |inner| + 1, patterns);
  }

  lemma MapOfPieces(u: Unicode, inner: string, pieces: seq<string>, entries: Fields)
    requires Lawful(u) && Tight(u, inner) && Split(inner, 0, None, []) == pieces
    requires |pieces| == |entries|
    ensures ParsePattern(u, "{" + inner + "}") == Parsed(MapOf(entries))
      <==> forall i | 0 <= i < |pieces| :: ParseEntry(u, pieces[i]) == Parsed(entries[i])
  {
    hide ParsePattern, ParseEntries, Split;
    MapText(u, inner);
    PiecesAreShort(inner, 0, None, []);
    EntriesRead(u, pieces, |inner| + 1, entries);
  }

  lemma ListAtPipe(u: Unicode, inner: string)
    requires Lawful(u) && Tight(u, inner) && PipeFrom(inner, 0).Some?
    ensures var i := PipeFrom(inner, 0).value;
      var head, tail := ParsePattern(u, Trim(u, inner[..i])), ParsePattern(u, Trim(u, inner[i + 1..]));
      ParsePattern(u, "[" + inner + "]") ==
        match head
        case Failed(e) => Failed(e)
        case Panic => Panic
        case Parsed(h) =>
          match tail
          case Failed(e) => Failed(e)
          case Panic => Panic
          case Parsed(t) => Parsed(ListOf(HeadTail(h, t)))
  {
    ListText(u, inner);
  }

  lemma EmptyBrackets(u: Unicode)
    requires Lawful(u)
    ensures ParsePattern(u, Print(ListOf(Empty))) == Parsed(ListOf(Empty))
    ensures ParsePattern(u, Print(MapOf([]))) == Parsed(MapOf([]))
  {
    var list, record := Print(ListOf(Empty)), Print(MapOf([]));
    TrimNothing(u, list);
    TrimNothing(u, record);
    NotALiteral(u, list);
    NotALiteral(u, record);
    assert Inner(list) == [] && Inner(record) == [];
    TrimNothing(u, []);
  }

  lemma TextsRead(u: Unicode, patterns: seq<Pattern>)
    requires Lawful(u) && patterns != [] && PipeFrom(Join(Texts(patterns)), 0) == None
    requires forall i | 0 <= i < |patterns| :: Solid(Texts(patterns)[i]) && Tight(u, Texts(patterns)[i])
    ensures ParsePattern(u, "[" + Join(Texts(patterns)) + "]") == Parsed(ListOf(Elements(patterns)))
      <==> forall i | 0 <= i < |patterns| :: ParsePattern(u, Print(patterns[i])) == Parsed(patterns[i])
  {
    hide ParsePattern, PipeFrom;
    var texts := Texts(patterns);
    JoinSplits(u, texts);
    JoinIsTight(u, texts);
    ListOfPieces(u, Join(texts), Pieces(texts), patterns);
    forall i | 0 <= i < |patterns| ensures Trim(u, Pieces(texts)[i]) == Print(patterns[i]) {
      PieceTrims(u, texts, i);
      TextsAt(patterns, i);
    }
  }

  lemma ElementsWritable(u: Unicode, patterns: seq<Pattern>)
    requires Writable(u, ListOf(Elements(patterns)))
    ensures patterns != [] && forall i | 0 <= i < |patterns| :: WritableInside(u, patterns[i])
  {
  }

  lemma ElementsRead(u: Unicode, patterns: seq<Pattern>)
    requires Lawful(u) && Writable(u, ListOf(Elements(patterns))) && PipeFrom(Join(Texts(patterns)), 0) == None
    ensures ParsePattern(u, Print(ListOf(Elements(patterns)))) == Parsed(ListOf(Elements(patterns)))
      <==> forall i | 0 <= i < |patterns| :: ParsePattern(u, Print(patterns[i])) == Parsed(patterns[i])
  {
    hide ParsePattern, PipeFrom, Writable, WritableInside;
    ElementsWritable(u, patterns);
    SolidTexts(u, patterns);
    TextsRead(u, patterns);
  }

  lemma EntryPieceReads(u: Unicode, entries: Fields, i: nat)
    requires Lawful(u) && i < |entries| && IsIdentifier(u, entries[i].key) && Writable(u, entries[i].pattern)
    requires Tight(u, EntryTexts(entries)[i])
    ensures ParseEntry(u, Pieces(EntryTexts(entries))[i]) == Parsed(entries[i])
      <==> ParsePattern(u, Print(entries[i].pattern)) == Parsed(entries[i].pattern)
  {
    PieceTrims(u, EntryTexts(entries), i);
    EntryTextsAt(entries, i);
    EntryReads(u, entries[i], Pieces(EntryTexts(entries))[i]);
  }

  lemma MapTextsRead(u: Unicode, entries: Fields)
    requires Lawful(u) && entries != []
    requires forall i | 0 <= i < |entries| :: IsIdentifier(u, entries[i].key) && Writable(u, entries[i].pattern)
    requires forall i | 0 <= i < |entries| :: Solid(EntryTexts(entries)[i]) && Tight(u, EntryTexts(entries)[i])
    ensures ParsePattern(u, "{" + Join(EntryTexts(entries)) + "}") == Parsed(MapOf(entries))
      <==> forall i | 0 <= i < |entries| :: ParsePattern(u, Print(entries[i].pattern)) == Parsed(entries[i].pattern)
  {
    hide ParsePattern, ParseEntry;
    var texts := EntryTexts(entries);
    JoinSplits(u, texts);
    JoinIsTight(u, texts);
    MapOfPieces(u, Join(texts), Pieces(texts), entries);
    forall i | 0 <= i < |entries|
      ensures ParseEntry(u, Pieces(texts)[i]) == Parsed(entries[i])
        <==> ParsePattern(u, Print(entries[i].pattern)) == Parsed(entries[i].pattern)
    {
      EntryPieceReads(u, entries, i);
    }
  }

  lemma MapReads(u: Unicode, entries: Fields)
    requires Lawful(u) && Writable(u, MapOf(entries)) && entries != []
    ensures ParsePattern(u, Print(MapOf(entries))) == Parsed(MapOf(entries))
      <==> forall i | 0 <= i < |entries| :: ParsePattern(u, Print(entries[i].pattern)) == Parsed(entries[i].pattern)
  {
    SolidEntryTexts(u, entries);
    MapTextsRead(u, entries);
  }

  /** The separator is seen, and both parts are read back. */
  ghost predicate PartsRead(u: Unicode, head: Pattern, tail: Pattern) {
    && PipeFrom(HeadTailText(Print(head), Print(tail)), 0) == Some(|Print(head)| + 1)
    && ParsePattern(u, Print(head)) == Parsed(head) && ParsePattern(u, Print(tail)) == Parsed(tail)
  }

  /** Cut at the separator, the list is read back exactly when both parts are. */
  lemma SeparatedRead(u: Unicode, head: Pattern, tail: Pattern)
    requires Lawful(u) && Tight(u, Print(head)) && Tight(u, Print(tail))
    requires PipeFrom(HeadTailText(Print(head), Print(tail)), 0) == Some(|Print(head)| + 1)
    ensures ParsePattern(u, "[" + HeadTailText(Print(head), Print(tail)) + "]") == Parsed(ListOf(HeadTail(head, tail)))
      <==> ParsePattern(u, Print(head)) == Parsed(head) && ParsePattern(u, Print(tail)) == Parsed(tail)
  {
    var h, t := Print(head), Print(tail);
    SeparatorCuts(u, h, t);
    HeadTailIsTight(u, h, t);
    ListAtPipe(u, HeadTailText(h, t));
  }

  lemma SeparatorCuts(u: Unicode, h: string, t: string)
    requires Lawful(u) && Tight(u, h) && Tight(u, t)
    ensures var inner := HeadTailText(h, t);
      Trim(u, inner[..|h| + 1]) == h && Trim(u, inner[|h| + 2..]) == t
  {
    var inner := HeadTailText(h, t);
    assert inner[..|h| + 1] == h + " " && inner[|h| + 2..] == " " + t;
    TrimSpaceAfter(u, h);
    TrimSpaceBefore(u, t);
  }

  lemma HeadTailIsTight(u: Unicode, h: string, t: string)
    requires Tight(u, h) && Tight(u, t)
    ensures Tight(u, HeadTailText(h, t))
  {
    var inner := HeadTailText(h, t);
    assert inner[0] == h[0] && inner[|inner| - 1] == t[|t| - 1];
  }

  lemma PartsMisread(u: Unicode, inner: string, i: nat, head: Pattern, tail: Pattern)
    requires Lawful(u) && Tight(u, inner) && PipeFrom(inner, 0) == Some(i)
    requires ParsePattern(u, Trim(u, inner[..i])) != Parsed(head) ||
      ParsePattern(u, Trim(u, inner[i + 1..])) != Parsed(tail)
    ensures ParsePattern(u, "[" + inner + "]") != Parsed(ListOf(HeadTail(head, tail)))
  {
    ListAtPipe(u, inner);
  }

  /** Cut at another pipe, the list is not read back. */
  lemma MiscutList(u: Unicode, head: Pattern, tail: Pattern)
    requires Lawful(u) && Tight(u, Print(head)) && Tight(u, Print(tail))
    requires var at := PipeFrom(HeadTailText(Print(head), Print(tail)), 0); at.Some? && at.value != |Print(head)| + 1
    ensures ParsePattern(u, "[" + HeadTailText(Print(head), Print(tail)) + "]") != Parsed(ListOf(HeadTail(head, tail)))
  {
    var inner := HeadTailText(Print(head), Print(tail));
    var i := PipeFrom(inner, 0).value;
    HeadTailIsTight(u, Print(head), Print(tail));
    WrongPipeLosesWeight(u, head, tail, i);
    PartsMisread(u, inner, i, head, tail);
  }

  lemma HeadTailTextRead(u: Unicode, head: Pattern, tail: Pattern)
    requires Lawful(u) && Tight(u, Print(head)) && Tight(u, Print(tail))
    ensures ParsePattern(u, "[" + HeadTailText(Print(head), Print(tail)) + "]") == Parsed(ListOf(HeadTail(head, tail)))
      <==> PartsRead(u, head, tail)
  {
    hide ParsePattern, PipeFrom;
    var inner := HeadTailText(Print(head), Print(tail));
    var at := PipeFrom(inner, 0);
    if at.None? {
      HeadTailIsTight(u, Print(head), Print(tail));
      PipelessList(u, inner, head, tail);
    } else if at.value == |Print(head)| + 1 {
      SeparatedRead(u, head, tail);
    } else {
      MiscutList(u, head, tail);
    }
  }

  lemma HeadTailRead(u: Unicode, head: Pattern, tail: Pattern)
    requires Lawful(u) && Writable(u, ListOf(HeadTail(head, tail)))
    ensures ParsePattern(u, Print(ListOf(HeadTail(head, tail)))) == Parsed(ListOf(HeadTail(head, tail)))
      <==> PartsRead(u, head, tail)
  {
    PrintIsTight(u, head);
    PrintIsTight(u, tail);
    HeadTailTextRead(u, head, tail);
  }

  lemma PipelessList(u: Unicode, inner: string, head: Pattern, tail: Pattern)
    requires Lawful(u) && Tight(u, inner) && PipeFrom(inner, 0) == None
    ensures ParsePattern(u, "[" + inner + "]") != Parsed(ListOf(HeadTail(head, tail)))
  {
    ListText(u, inner);
  }

  /** Cutting elsewhere than at the separator leaves one of the two parts too light. */
  lemma WrongPipeLosesWeight(u: Unicode, head: Pattern, tail: Pattern, i: nat)
    requires Lawful(u) && i != |Print(head)| + 1
    requires var inner := HeadTailText(Print(head), Print(tail)); i < |inner| && inner[i] == '|'
    ensures var inner := HeadTailText(Print(head), Print(tail));
      ParsePattern(u, Trim(u, inner[..i])) != Parsed(head) || ParsePattern(u, Trim(u, inner[i + 1..])) != Parsed(tail)
  {
    var h, t := Print(head), Print(tail);
    var inner := HeadTailText(h, t);
    WeightOne(u, '|');
    assert inner[|h|] == ' ' && inner[|h| + 2] == ' ';
    if i < |h| {
      assert inner[..i] == h[..i] && h[i] == '|';
      WeightTrim(u, inner[..i]);
      WeightSplitAt(u, h, i);
      TooLight(u, Trim(u, inner[..i]), head);
    } else {
      var k := i - |h| - 3;
      assert t[k] == '|' && inner[i + 1..] == t[k + 1..];
      WeightTrim(u, inner[i + 1..]);
      WeightSplitAt(u, t, k);
      TooLight(u, Trim(u, inner[i + 1..]), tail);
    }
  }

  /** A pipe found in an element list makes it a head and a tail, or an error. */
  lemma PipedElementsMisread(u: Unicode, patterns: seq<Pattern>)
    requires Lawful(u) && Writable(u, ListOf(Elements(patterns))) && PipeFrom(Join(Texts(patterns)), 0).Some?
    ensures ParsePattern(u, Print(ListOf(Elements(patterns)))) != Parsed(ListOf(Elements(patterns)))
  {
    var texts := Texts(patterns);
    SolidTexts(u, patterns);
    JoinIsTight(u, texts);
    ListAtPipe(u, Join(texts));
  }
}
