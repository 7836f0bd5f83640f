/**
 When the pattern parser slices out of range, which is `Panic` in the model
 (`crates/luaml/src/pattern.rs`): only at a lone quote character, at whatever depth.
 */
module PatternPanics {
  import opened Wrappers
  import opened PatternParser
  import opened PatternPrinter
  import opened PatternReading

  /** The texts that the list parser goes on to read. */
  function ListParts(u: Unicode, s: string): seq<string>
    requires |s| >= 2
  {
    var inner := Trim(u, Inner(s));
    if inner == [] then []
    else
      match PipeFrom(inner, 0)
      case Some(i) => [inner[..i], inner[i + 1..]]
      case None => Split(inner, 0, None, [])
  }

  /** The text after the colon of a map entry. */
  function ValuePart(u: Unicode, piece: string): Option<string> {
    var pair := Trim(u, piece);
    var colon := IndexOf(pair, ':');
    if colon == |pair| then None else Some(pair[colon + 1..])
  }

  function MapPieces(u: Unicode, s: string): seq<string>
    requires |s| >= 2
  {
    Split(Trim(u, Inner(s)), 0, None, [])
  }

  lemma PartsAreShort(u: Unicode, s: string)
    requires |s| >= 2
    ensures forall part | part in ListParts(u, s) :: |part| < |s|
    ensures forall piece | piece in MapPieces(u, s) :: |piece| < |s| - 1
  {
    PiecesAreShort(Trim(u, Inner(s)), 0, None, []);
  }

  /** A part of the text that is read on its own is, white space aside, a lone quote character. */
  ghost predicate LoneQuoteIn(u: Unicode, input: string)
    decreases |input|
  {
    var s := Trim(u, input);
    if |s| == 1 then IsQuote(s[0])
    else if Enclosed(s, '[', ']') then
      PartsAreShort(u, s);
      exists i :: 0 <= i < |ListParts(u, s)| && LoneQuoteIn(u, ListParts(u, s)[i])
    else if Enclosed(s, '{', '}') then
      PartsAreShort(u, s);
      exists i :: 0 <= i < |MapPieces(u, s)| && ValuePart(u, MapPieces(u, s)[i]).Some?
        && LoneQuoteIn(u, ValuePart(u, MapPieces(u, s)[i]).value)
    else false
  }

  /** What the two lemmas below say of one text. */
  ghost predicate Told(u: Unicode, input: string) {
    && (ParsePattern(u, input).Panic? ==> LoneQuoteIn(u, input))
    && (ParsePattern(u, input).Parsed? ==> !LoneQuoteIn(u, input))
  }

  lemma {:induction false} PanickingPiece(u: Unicode, pieces: seq<string>, n: nat) returns (i: nat)
    requires (forall piece | piece in pieces :: |piece| < n) && ParsePieces(u, pieces, n).Panic?
    ensures i < |pieces| && ParsePattern(u, pieces[i]).Panic?
  {
    hide ParsePattern;
    ParseTrims(u, pieces[0]);
    if ParsePattern(u, pieces[0]).Panic? {
      i := 0;
    } else {
      var k := PanickingPiece(u, pieces[1..], n);
      i := k + 1;
    }
  }

  lemma {:induction false} PanickingEntry(u: Unicode, pieces: seq<string>, n: nat) returns (i: nat)
    requires (forall piece | piece in pieces :: |piece| < n) && ParseEntries(u, pieces, n).Panic?
    ensures i < |pieces| && ParseEntry(u, pieces[i]).Panic?
  {
    hide ParseEntry;
    if ParseEntry(u, pieces[0]).Panic? {
      i := 0;
    } else {
      var k := PanickingEntry(u, pieces[1..], n);
      i := k + 1;
    }
  }

  lemma EntryParts(u: Unicode, piece: string)
    ensures ParseEntry(u, piece).Panic? ==>
      ValuePart(u, piece).Some? && ParsePattern(u, ValuePart(u, piece).value).Panic?
    ensures ParseEntry(u, piece).Parsed? ==>
      ValuePart(u, piece).Some? && ParsePattern(u, ValuePart(u, piece).value).Parsed?
  {
    hide ParsePattern;
    if ValuePart(u, piece).Some? { ParseTrims(u, ValuePart(u, piece).value); }
  }

  /** The list parser panics only if a part does, and reads a list only if every part is read. */
  lemma ListVerdict(u: Unicode, s: string)
    requires |s| >= 2
    ensures ParseList(u, s).Panic? ==>
      exists i :: 0 <= i < |ListParts(u, s)| && ParsePattern(u, ListParts(u, s)[i]).Panic?
    ensures ParseList(u, s).Parsed? ==>
      forall i | 0 <= i < |ListParts(u, s)| :: ParsePattern(u, ListParts(u, s)[i]).Parsed?
  {
    hide ParsePattern, PipeFrom, Split;
    var inner, parts := Trim(u, Inner(s)), ListParts(u, s);
    if inner == [] {
    } else if PipeFrom(inner, 0).Some? {
      ParseTrims(u, parts[0]);
      ParseTrims(u, parts[1]);
    } else {
      PiecesAreShort(inner, 0, None, []);
      PiecesVerdict(u, parts, |s| - 1);
    }
  }

  lemma PiecesVerdict(u: Unicode, pieces: seq<string>, n: nat)
    requires forall piece | piece in pieces :: |piece| < n
    ensures ParsePieces(u, pieces, n).Panic? ==> exists i :: 0 <= i < |pieces| && ParsePattern(u, pieces[i]).Panic?
    ensures ParsePieces(u, pieces, n).Parsed? ==> forall i | 0 <= i < |pieces| :: ParsePattern(u, pieces[i]).Parsed?
  {
    hide ParsePattern, ParsePieces;
    if ParsePieces(u, pieces, n).Panic? {
      var i := PanickingPiece(u, pieces, n);
    }
    if ParsePieces(u, pieces, n).Parsed? {
      forall i | 0 <= i < |pieces| ensures ParsePattern(u, pieces[i]).Parsed? {
        ReadPieceAt(u, pieces, n, i);
        ParseTrims(u, pieces[i]);
      }
    }
  }

  /** The value of the `i`-th entry of a map. */
  ghost predicate ValueIs(u: Unicode, pieces: seq<string>, i: int, part: string) {
    0 <= i < |pieces| && ValuePart(u, pieces[i]) == Some(part)
  }

  lemma MapVerdict(u: Unicode, s: string)
    requires |s| >= 2
    ensures ParseMap(u, s).Panic? ==>
      exists i, part :: ValueIs(u, MapPieces(u, s), i, part) && ParsePattern(u, part).Panic?
    ensures ParseMap(u, s).Parsed? ==>
      forall i, part | ValueIs(u, MapPieces(u, s), i, part) :: ParsePattern(u, part).Parsed?
  {
    hide ParsePattern, Split, ParseEntry, ValuePart;
    var inner, pieces := Trim(u, Inner(s)), MapPieces(u, s);
    PiecesAreShort(inner, 0, None, []);
    if inner == [] {
      NoPieces();
    } else if ParseMap(u, s).Panic? {
      var i := PanickingEntry(u, pieces, |s| - 1);
      EntryParts(u, pieces[i]);
      assert ValueIs(u, pieces, i, ValuePart(u, pieces[i]).value);
    } else if ParseMap(u, s).Parsed? {
      forall i, part | ValueIs(u, pieces, i, part) ensures ParsePattern(u, part).Parsed? {
        ReadEntryAt(u, pieces, |s| - 1, i);
        EntryParts(u, pieces[i]);
      }
    }
  }

  lemma NoPieces()
    ensures Split([], 0, None, []) == []
  {
  }

  /**
   A panic tells of a part that is a lone quote character, and a text with such a part is never read: it
   panics or fails.
   */
  lemma {:induction false} PanicTellsLoneQuote(u: Unicode, input: string)
    ensures ParsePattern(u, input).Panic? ==> LoneQuoteIn(u, input)
    ensures ParsePattern(u, input).Parsed? ==> !LoneQuoteIn(u, input)
    decreases |input|
  {
    var s := Trim(u, input);
    ParseTrims(u, input);
    TrimTwice(u, input);
    if Enclosed(s, '[', ']') && |s| >= 2 {
      NotALiteral(u, s);
      PartsAreShort(u, s);
      forall i | 0 <= i < |ListParts(u, s)| ensures Told(u, ListParts(u, s)[i]) {
        PanicTellsLoneQuote(u, ListParts(u, s)[i]);
      }
      ToldOfList(u, input);
    } else if Enclosed(s, '{', '}') && |s| >= 2 {
      NotALiteral(u, s);
      PartsAreShort(u, s);
      forall i, part | ValueIs(u, MapPieces(u, s), i, part) ensures Told(u, part) {
        PanicTellsLoneQuote(u, part);
      }
      ToldOfMap(u, input);
    } else {
      PanicOnLoneQuote(u, input);
    }
  }

  lemma ToldOfList(u: Unicode, input: string)
    requires var s := Trim(u, input);
      && Enclosed(s, '[', ']') && |s| >= 2 && ParsePattern(u, input) == ParseList(u, s)
      && forall i | 0 <= i < |ListParts(u, s)| :: Told(u, ListParts(u, s)[i])
    ensures Told(u, input)
  {
    hide ParsePattern, ParseList, ListParts;
    var s := Trim(u, input);
    ListVerdict(u, s);
    if ParsePattern(u, input).Parsed? {
      forall i | 0 <= i < |ListParts(u, s)| ensures !LoneQuoteIn(u, ListParts(u, s)[i]) {
        assert Told(u, ListParts(u, s)[i]);
      }
    }
    if ParsePattern(u, input).Panic? {
      var i :| 0 <= i < |ListParts(u, s)| && ParsePattern(u, ListParts(u, s)[i]).Panic?;
      assert Told(u, ListParts(u, s)[i]);
    }
  }

  lemma ToldOfMap(u: Unicode, input: string)
    requires var s := Trim(u, input);
      && Enclosed(s, '{', '}') && |s| >= 2 && ParsePattern(u, input) == ParseMap(u, s)
      && forall i, part | ValueIs(u, MapPieces(u, s), i, part) :: Told(u, part)
    ensures Told(u, input)
  {
    hide ParsePattern, ParseMap, MapPieces, ValuePart;
    var s := Trim(u, input);
    MapVerdict(u, s);
    if ParsePattern(u, input).Parsed? {
      forall i | 0 <= i < |MapPieces(u, s)| && ValuePart(u, MapPieces(u, s)[i]).Some?
        ensures !LoneQuoteIn(u, ValuePart(u, MapPieces(u, s)[i]).value)
      {
        assert ValueIs(u, MapPieces(u, s), i, ValuePart(u, MapPieces(u, s)[i]).value);
      }
    }
    if ParsePattern(u, input).Panic? {
      var i, part :| ValueIs(u, MapPieces(u, s), i, part) && ParsePattern(u, part).Panic?;
      assert Told(u, part);
    }
  }

  // When exactly the parser panics.

  /** The key of a map entry is an identifier, so its value is read. */
  predicate KeyIsRead(u: Unicode, piece: string) {
    var pair := Trim(u, piece);
    var colon := IndexOf(pair, ':');
    colon < |pair| && IsIdentifier(u, Trim(u, pair[..colon]))
  }

  /** Some part panics, and every part before it is read; a lone quote character is where it starts. */
  ghost predicate PanicsAt(u: Unicode, input: string)
    decreases |input|
  {
    var s := Trim(u, input);
    if |s| == 1 then IsQuote(s[0])
    else if Enclosed(s, '[', ']') then
      PartsAreShort(u, s);
      exists i :: 0 <= i < |ListParts(u, s)|
        && PanicsAt(u, ListParts(u, s)[i]) && PartsReadBefore(u, ListParts(u, s), i)
    else if Enclosed(s, '{', '}') then
      PartsAreShort(u, s);
      exists i :: 0 <= i < |MapPieces(u, s)| && EntriesReadBefore(u, MapPieces(u, s), i)
        && KeyIsRead(u, MapPieces(u, s)[i]) && ValuePart(u, MapPieces(u, s)[i]).Some?
        && PanicsAt(u, ValuePart(u, MapPieces(u, s)[i]).value)
    else false
  }

  ghost predicate PartsReadBefore(u: Unicode, parts: seq<string>, i: nat)
    requires i <= |parts|
  {
    forall j | 0 <= j < i :: ParsePattern(u, parts[j]).Parsed?
  }

  ghost predicate EntriesReadBefore(u: Unicode, pieces: seq<string>, i: nat)
    requires i <= |pieces|
  {
    forall j | 0 <= j < i :: ParseEntry(u, pieces[j]).Parsed?
  }

  lemma {:induction false} PiecesPanicIff(u: Unicode, pieces: seq<string>, n: nat)
    requires forall piece | piece in pieces :: |piece| < n
    ensures ParsePieces(u, pieces, n).Panic? <==>
      exists i :: 0 <= i < |pieces| && ParsePattern(u, pieces[i]).Panic? && PartsReadBefore(u, pieces, i)
  {
    hide ParsePattern;
    if pieces != [] {
      ParseTrims(u, pieces[0]);
      PiecesPanicIff(u, pieces[1..], n);
      if i :| 0 <= i < |pieces[1..]| && ParsePattern(u, pieces[1..][i]).Panic? && PartsReadBefore(u, pieces[1..], i) {
        if ParsePattern(u, pieces[0]).Parsed? { PartsShift(u, pieces, i); }
      }
      if i :| 0 <= i < |pieces| && ParsePattern(u, pieces[i]).Panic? && PartsReadBefore(u, pieces, i) {
        if i > 0 { PartsShift(u, pieces, i - 1); }
      }
    }
  }

  lemma PartsShift(u: Unicode, pieces: seq<string>, i: nat)
    requires i + 1 < |pieces|
    ensures pieces[1..][i] == pieces[i + 1]
    ensures PartsReadBefore(u, pieces, i + 1) <==>
      ParsePattern(u, pieces[0]).Parsed? && PartsReadBefore(u, pieces[1..], i)
  {
    hide ParsePattern;
    assert forall j | 0 <= j < i :: pieces[1..][j] == pieces[j + 1];
    assert forall j | 1 <= j < i + 1 :: pieces[j] == pieces[1..][j - 1];
  }

  lemma {:induction false} EntriesPanicIff(u: Unicode, pieces: seq<string>, n: nat)
    requires forall piece | piece in pieces :: |piece| < n
    ensures ParseEntries(u, pieces, n).Panic? <==>
      exists i :: 0 <= i < |pieces| && ParseEntry(u, pieces[i]).Panic? && EntriesReadBefore(u, pieces, i)
  {
    hide ParseEntry;
    if pieces != [] {
      EntriesPanicIff(u, pieces[1..], n);
      if i :| 0 <= i < |pieces[1..]| && ParseEntry(u, pieces[1..][i]).Panic? && EntriesReadBefore(u, pieces[1..], i) {
        if ParseEntry(u, pieces[0]).Parsed? { EntriesShift(u, pieces, i); }
      }
      if i :| 0 <= i < |pieces| && ParseEntry(u, pieces[i]).Panic? && EntriesReadBefore(u, pieces, i) {
        if i > 0 { EntriesShift(u, pieces, i - 1); }
      }
    }
  }

  lemma EntriesShift(u: Unicode, pieces: seq<string>, i: nat)
    requires i + 1 < |pieces|
    ensures pieces[1..][i] == pieces[i + 1]
    ensures EntriesReadBefore(u, pieces, i + 1) <==>
      ParseEntry(u, pieces[0]).Parsed? && EntriesReadBefore(u, pieces[1..], i)
  {
    hide ParseEntry;
    assert forall j | 0 <= j < i :: pieces[1..][j] == pieces[j + 1];
    assert forall j | 1 <= j < i + 1 :: pieces[j] == pieces[1..][j - 1];
  }

  lemma EntryPanicsIff(u: Unicode, piece: string)
    ensures ParseEntry(u, piece).Panic? <==>
      KeyIsRead(u, piece) && ValuePart(u, piece).Some? && ParsePattern(u, ValuePart(u, piece).value).Panic?
  {
    hide ParsePattern, IsIdentifier;
    if ValuePart(u, piece).Some? { ParseTrims(u, ValuePart(u, piece).value); }
  }

  lemma ListPanicsIff(u: Unicode, s: string)
    requires |s| >= 2
    ensures ParseList(u, s).Panic? <==>
      exists i :: 0 <= i < |ListParts(u, s)| && ParsePattern(u, ListParts(u, s)[i]).Panic?
        && PartsReadBefore(u, ListParts(u, s), i)
  {
    hide ParsePattern, ParsePieces, PipeFrom, Split;
    var inner, parts := Trim(u, Inner(s)), ListParts(u, s);
    if inner == [] {
    } else if PipeFrom(inner, 0).Some? {
      ParseTrims(u, parts[0]);
      ParseTrims(u, parts[1]);
      TwoPartsPanicIff(u, parts);
    } else {
      PiecesAreShort(inner, 0, None, []);
      PiecesPanicIff(u, parts, |s| - 1);
    }
  }

  lemma TwoPartsPanicIff(u: Unicode, parts: seq<string>)
    requires |parts| == 2
    ensures (exists i :: 0 <= i < |parts| && ParsePattern(u, parts[i]).Panic? && PartsReadBefore(u, parts, i)) <==>
      ParsePattern(u, parts[0]).Panic? || (ParsePattern(u, parts[0]).Parsed? && ParsePattern(u, parts[1]).Panic?)
  {
    hide ParsePattern;
    assert PartsReadBefore(u, parts, 0) && (PartsReadBefore(u, parts, 1) <==> ParsePattern(u, parts[0]).Parsed?);
    if ParsePattern(u, parts[0]).Panic? {
      assert 0 <= 0 < |parts| && ParsePattern(u, parts[0]).Panic? && PartsReadBefore(u, parts, 0);
    }
  }

  lemma MapPanicsIff(u: Unicode, s: string)
    requires |s| >= 2
    ensures ParseMap(u, s).Panic? <==>
      exists i :: 0 <= i < |MapPieces(u, s)| && ParseEntry(u, MapPieces(u, s)[i]).Panic?
        && EntriesReadBefore(u, MapPieces(u, s), i)
  {
    hide ParseEntry, ParseEntries, Split;
    var inner, pieces := Trim(u, Inner(s)), MapPieces(u, s);
    PiecesAreShort(inner, 0, None, []);
    if inner == [] {
      NoPieces();
    } else {
      EntriesPanicIff(u, pieces, |s| - 1);
    }
  }

  /** The parser panics exactly at a lone quote character that it comes to before any error. */
  lemma {:induction false} PanicsIff(u: Unicode, input: string)
    ensures ParsePattern(u, input).Panic? <==> PanicsAt(u, input)
    decreases |input|
  {
    var s := Trim(u, input);
    ParseTrims(u, input);
    TrimTwice(u, input);
    if Enclosed(s, '[', ']') && |s| >= 2 {
      NotALiteral(u, s);
      PartsAreShort(u, s);
      forall i | 0 <= i < |ListParts(u, s)|
        ensures ParsePattern(u, ListParts(u, s)[i]).Panic? <==> PanicsAt(u, ListParts(u, s)[i])
      {
        PanicsIff(u, ListParts(u, s)[i]);
      }
      PanicsIffInList(u, input, s);
    } else if Enclosed(s, '{', '}') && |s| >= 2 {
      NotALiteral(u, s);
      PartsAreShort(u, s);
      forall i | 0 <= i < |MapPieces(u, s)|
        ensures ParseEntry(u, MapPieces(u, s)[i]).Panic? <==>
          KeyIsRead(u, MapPieces(u, s)[i]) && ValuePart(u, MapPieces(u, s)[i]).Some?
          && PanicsAt(u, ValuePart(u, MapPieces(u, s)[i]).value)
      {
        EntryPanicsIff(u, MapPieces(u, s)[i]);
        if ValuePart(u, MapPieces(u, s)[i]).Some? {
          PanicsIff(u, ValuePart(u, MapPieces(u, s)[i]).value);
        }
      }
      PanicsIffInMap(u, input, s);
    } else {
      PanicOnLoneQuote(u, input);
    }
  }

  lemma PanicsIffInList(u: Unicode, input: string, s: string)
    requires s == Trim(u, input) && Enclosed(s, '[', ']') && |s| >= 2 && ParsePattern(u, input) == ParseList(u, s)
    requires forall i | 0 <= i < |ListParts(u, s)| ::
      ParsePattern(u, ListParts(u, s)[i]).Panic? <==> PanicsAt(u, ListParts(u, s)[i])
    ensures ParsePattern(u, input).Panic? <==> PanicsAt(u, input)
  {
    hide ParsePattern, ParseList, ListParts;
    ListPanicsIff(u, s);
  }

  lemma PanicsIffInMap(u: Unicode, input: string, s: string)
    requires s == Trim(u, input) && Enclosed(s, '{', '}') && |s| >= 2 && ParsePattern(u, input) == ParseMap(u, s)
    requires forall i | 0 <= i < |MapPieces(u, s)| ::
      ParseEntry(u, MapPieces(u, s)[i]).Panic? <==>
        KeyIsRead(u, MapPieces(u, s)[i]) && ValuePart(u, MapPieces(u, s)[i]).Some?
        && PanicsAt(u, ValuePart(u, MapPieces(u, s)[i]).value)
    ensures ParsePattern(u, input).Panic? <==> PanicsAt(u, input)
  {
    hide ParsePattern, ParseMap, ParseEntry, MapPieces, ValuePart, KeyIsRead;
    MapPanicsIff(u, s);
  }

  /** A list of a lone quote character panics, and so does a list of that list. */
  lemma QuoteInListPanics(u: Unicode, quote: char)
    requires Lawful(u) && IsQuote(quote)
    ensures ParsePattern(u, "[" + [quote] + "]").Panic?
    ensures ParsePattern(u, "[" + ("[" + [quote] + "]") + "]").Panic?
  {
    var inner := [quote];
    var s := "[" + inner + "]";
    LoneQuotePanics(u, quote);
    assert PipeFrom(inner, 0) == None by { assert PipeFrom(inner[1..], 0) == None; }
    assert [] + [quote] == inner;
    assert Split(inner, 0, None, []) == Split(inner[1..], 0, Some(quote), inner) == [inner];
    SinglePartPanics(u, inner);
    assert PipeFrom(s, 0) == None by { BracketedHasNoPipe(quote); }
    BracketedSplits(quote);
    SinglePartPanics(u, s);
  }

  lemma LoneQuotePanics(u: Unicode, quote: char)
    requires Lawful(u) && IsQuote(quote)
    ensures ParsePattern(u, [quote]).Panic? && Tight(u, [quote])
  {
    TrimNothing(u, [quote]);
    PanicOnLoneQuote(u, [quote]);
  }

  lemma BracketedHasNoPipe(quote: char)
    requires IsQuote(quote)
    ensures PipeFrom("[" + [quote] + "]", 0) == None
  {
    var s := "[" + [quote] + "]";
    assert s[1..] == [quote, ']'] && s[1..][1..] == [']'] && [']'][1..] == [];
    assert PipeFrom([']'], 1) == None && PipeFrom([quote, ']'], 1) == None;
  }

  /** The splitter takes the open quote with it to the end. */
  lemma BracketedSplits(quote: char)
    requires IsQuote(quote)
    ensures Split("[" + [quote] + "]", 0, None, []) == ["[" + [quote] + "]"]
  {
    var s := "[" + [quote] + "]";
    assert s[1..] == [quote, ']'] && s[1..][1..] == [']'] && [']'][1..] == [];
    assert [] + ['['] == "[" && "[" + [quote] == ['[', quote] && ['[', quote] + [']'] == s;
    assert Split([], 1, Some(quote), s) == [s];
    assert Split([']'], 1, Some(quote), ['[', quote]) == [s];
    assert Split([quote, ']'], 1, None, "[") == [s];
  }

  lemma SinglePartPanics(u: Unicode, inner: string)
    requires Lawful(u) && Tight(u, inner) && PipeFrom(inner, 0) == None && Split(inner, 0, None, []) == [inner]
    requires ParsePattern(u, inner).Panic?
    ensures ParsePattern(u, "[" + inner + "]").Panic? && Tight(u, "[" + inner + "]")
  {
    hide ParsePattern, ParseList, PipeFrom, Split;
    var s := "[" + inner + "]";
    ListText(u, inner);
    ListPanicsIff(u, s);
    assert ListParts(u, s) == [inner] && PartsReadBefore(u, [inner], 0);
    assert ParsePattern(u, ListParts(u, s)[0]).Panic?;
  }

  // Texts without quotes.

  ghost predicate NoQuotes(s: string) {
    forall i | 0 <= i < |s| :: !IsQuote(s[i])
  }

  lemma {:induction false} TrimKeepsNoQuotes(u: Unicode, s: string)
    requires NoQuotes(s)
    ensures NoQuotes(Trim(u, s))
  {
    TrimStartIsSuffix(u, s);
    TrimEndIsPrefix(u, TrimStart(u, s));
  }

  lemma {:induction false} TrimStartIsSuffix(u: Unicode, s: string)
    ensures TrimStart(u, s) == s[|s| - |TrimStart(u, s)|..]
  {
    if s != [] && u.whitespace(s[0]) { TrimStartIsSuffix(u, s[1..]); }
  }

  lemma {:induction false} TrimEndIsPrefix(u: Unicode, s: string)
    ensures TrimEnd(u, s) == s[..|TrimEnd(u, s)|]
  {
    if s != [] && u.whitespace(s[|s| - 1]) { TrimEndIsPrefix(u, s[..|s| - 1]); }
  }

  lemma {:induction false} SplitKeepsNoQuotes(s: string, depth: int, current: string)
    requires NoQuotes(s) && NoQuotes(current)
    ensures forall piece | piece in Split(s, depth, None, current) :: NoQuotes(piece)
    decreases |s|
  {
    if s != [] {
      var c := s[0];
      if c == ',' && depth == 0 {
        SplitKeepsNoQuotes(s[1..], depth, []);
      } else {
        var next := if Opens(c) then depth + 1 else if Closes(c) then depth - 1 else depth;
        SplitKeepsNoQuotes(s[1..], next, current + [c]);
      }
    }
  }

  /** Without a quote character no slice goes out of range. */
  lemma {:induction false} NoQuoteNoPanic(u: Unicode, input: string)
    requires NoQuotes(input)
    ensures !ParsePattern(u, input).Panic?
    decreases |input|, 2
  {
    var s := Trim(u, input);
    TrimKeepsNoQuotes(u, input);
    if Enclosed(s, '[', ']') {
      NoPanicInList(u, s);
    } else if Enclosed(s, '{', '}') {
      NoPanicInMap(u, s);
    }
  }

  lemma {:induction false} NoPanicInPart(u: Unicode, part: string)
    requires NoQuotes(part)
    ensures !ParsePattern(u, Trim(u, part)).Panic?
    decreases |part|, 3
  {
    TrimKeepsNoQuotes(u, part);
    NoQuoteNoPanic(u, Trim(u, part));
  }

  lemma {:induction false} NoPanicInList(u: Unicode, s: string)
    requires |s| >= 2 && NoQuotes(s)
    ensures !ParseList(u, s).Panic?
    decreases |s|, 1
  {
    hide PipeFrom, Split, ParsePattern;
    var inner := Trim(u, Inner(s));
    TrimKeepsNoQuotes(u, Inner(s));
    var at := PipeFrom(inner, 0);
    if at.Some? {
      NoPanicInPart(u, inner[..at.value]);
      NoPanicInPart(u, inner[at.value + 1..]);
    } else {
      PiecesAreShort(inner, 0, None, []);
      SplitKeepsNoQuotes(inner, 0, []);
      NoPanicInPieces(u, Split(inner, 0, None, []), |s| - 1);
    }
  }

  lemma {:induction false} NoPanicInMap(u: Unicode, s: string)
    requires |s| >= 2 && NoQuotes(s)
    ensures !ParseMap(u, s).Panic?
    decreases |s|, 1
  {
    var inner := Trim(u, Inner(s));
    TrimKeepsNoQuotes(u, Inner(s));
    PiecesAreShort(inner, 0, None, []);
    SplitKeepsNoQuotes(inner, 0, []);
    NoPanicInEntries(u, Split(inner, 0, None, []), |s| - 1);
  }

  lemma {:induction false} NoPanicInPieces(u: Unicode, pieces: seq<string>, n: nat)
    requires forall piece | piece in pieces :: |piece| < n && NoQuotes(piece)
    ensures !ParsePieces(u, pieces, n).Panic?
    decreases n, 0, |pieces|
  {
    if pieces != [] {
      TrimKeepsNoQuotes(u, pieces[0]);
      NoQuoteNoPanic(u, Trim(u, pieces[0]));
      NoPanicInPieces(u, pieces[1..], n);
    }
  }

  lemma {:induction false} NoPanicInEntry(u: Unicode, piece: string)
    requires NoQuotes(piece)
    ensures !ParseEntry(u, piece).Panic?
    decreases |piece|, 3
  {
    hide ParsePattern, Trim, IndexOf, IsIdentifier;
    var pair := Trim(u, piece);
    var colon := IndexOf(pair, ':');
    TrimKeepsNoQuotes(u, piece);
    if colon < |pair| {
      TrimKeepsNoQuotes(u, pair[colon + 1..]);
      NoQuoteNoPanic(u, Trim(u, pair[colon + 1..]));
    }
  }

  lemma {:induction false} NoPanicInEntries(u: Unicode, pieces: seq<string>, n: nat)
    requires forall piece | piece in pieces :: |piece| < n && NoQuotes(piece)
    ensures !ParseEntries(u, pieces, n).Panic?
    decreases n, 0, |pieces|
  {
    if pieces != [] {
      NoPanicInEntry(u, pieces[0]);
      NoPanicInEntries(u, pieces[1..], n);
    }
  }

  /** A text that is no list and no map panics exactly when it is a lone quote character. */
  lemma PanicOnLoneQuote(u: Unicode, input: string)
    requires !Enclosed(Trim(u, input), '[', ']') && !Enclosed(Trim(u, input), '{', '}')
    ensures ParsePattern(u, input).Panic? <==> |Trim(u, input)| == 1 && IsQuote(Trim(u, input)[0])
  {
  }
}
