/** Writing scripts, and reading them back. */
module ScriptPrinter {
  import opened Wrappers
  import opened Values
  import opened Patterns
  import opened PatternParser
  import opened PatternPrinter
  import opened PatternReading
  import opened PatternRoundTrip
  import opened Clauses
  import opened Matching
  import opened ScriptSplit
  import opened Frontmatter
  import opened ScriptParser

  function PrintLine(kind: LineKind): string {
    match kind
    case Blank => ""
    case AnnotationLine(key, value) => "@" + EntryText(key, value)
    case GuardLine(text) => "? " + text
    case FieldLine(field) => EntryText(field.key, Print(field.pattern))
    case Bad(_) => ""
  }

  /** Lines whose parts keep their shape: names are identifiers, texts have no outer white space. */
  ghost predicate Printable(u: Unicode, kind: LineKind) {
    match kind
    case Blank => true
    case AnnotationLine(key, value) => IsIdentifier(u, key) && Tight(u, value)
    case GuardLine(text) => Tight(u, text)
    case FieldLine(field) => IsIdentifier(u, field.key) && Writable(u, field.pattern) && PipesFound(field.pattern)
    case Bad(_) => false
  }

  lemma EntryIsTight(u: Unicode, key: string, value: string)
    requires Lawful(u) && IsIdentifier(u, key) && Tight(u, value)
    ensures var pair := EntryText(key, value);
      Tight(u, pair) && pair[0] == key[0] && pair[0] != '!' && pair[0] != '@' && pair[0] != '?' && pair[0] != '-' &&
        ':' in pair
  {
    var pair := EntryText(key, value);
    IdentifierIsTight(u, key);
    assert pair[|pair| - 1] == value[|value| - 1] && pair[|key|] == ':';
  }

  lemma FieldLineReads(u: Unicode, field: Field)
    requires Lawful(u) && Printable(u, FieldLine(field))
    ensures Classify(u, PrintLine(FieldLine(field))) == FieldLine(field)
  {
    hide Classify, ParsePattern, PipesFound, Print, Writable, Trim, IndexOf, IsIdentifier;
    var value := Print(field.pattern);
    PrintIsTight(u, field.pattern);
    EntryIsTight(u, field.key, value);
    TrimNothing(u, EntryText(field.key, value));
    EntryCuts(u, field.key, value);
    RoundTrip(u, field.pattern);
    FieldClassified(u, EntryText(field.key, value), field, value);
  }

  lemma FieldClassified(u: Unicode, line: string, field: Field, value: string)
    requires Trim(u, line) == line && line != [] && line[0] != '!' && line[0] != '@' && line[0] != '?'
    requires |field.key| < |line| && IndexOf(line, ':') == |field.key| && Trim(u, line[..|field.key|]) == field.key
    requires Trim(u, line[|field.key| + 1..]) == value != []
    requires ParsePattern(u, value) == PatternParser.Parsed(field.pattern)
    ensures Classify(u, line) == FieldLine(field)
  {
    hide ParsePattern, Trim, IndexOf;
  }

  lemma AnnotationLineReads(u: Unicode, key: string, value: string)
    requires Lawful(u) && Printable(u, AnnotationLine(key, value))
    ensures Classify(u, PrintLine(AnnotationLine(key, value))) == AnnotationLine(key, value)
  {
    hide ParsePattern;
    var pair, line := EntryText(key, value), PrintLine(AnnotationLine(key, value));
    EntryIsTight(u, key, value);
    assert line[1..] == pair && line[|line| - 1] == pair[|pair| - 1];
    TrimNothing(u, line);
    EntryCuts(u, key, value);
  }

  lemma GuardLineReads(u: Unicode, text: string)
    requires Lawful(u) && Tight(u, text)
    ensures Classify(u, PrintLine(GuardLine(text))) == GuardLine(text)
  {
    hide ParsePattern;
    var line := PrintLine(GuardLine(text));
    assert line[1..] == " " + text && line[|line| - 1] == text[|text| - 1];
    TrimNothing(u, line);
    TrimSpaceBefore(u, text);
  }

  /** A written line is read as what it was written for. */
  lemma LineReads(u: Unicode, kind: LineKind)
    requires Lawful(u) && Printable(u, kind)
    ensures Classify(u, PrintLine(kind)) == kind
    ensures PrintLine(kind) != FENCE
  {
    match kind {
      case Blank => TrimNothing(u, "");
      case AnnotationLine(key, value) => AnnotationLineReads(u, key, value);
      case GuardLine(text) => GuardLineReads(u, text);
      case FieldLine(field) =>
        PrintIsTight(u, field.pattern);
        EntryIsTight(u, field.key, Print(field.pattern));
        FieldLineReads(u, field);
    }
  }

  function PrintLines(kinds: seq<LineKind>): (lines: seq<string>)
    ensures |lines| == |kinds|
  {
    seq(|kinds|, i requires 0 <= i < |kinds| => PrintLine(kinds[i]))
  }

  ghost predicate AllPrintable(u: Unicode, kinds: seq<LineKind>) {
    forall i | 0 <= i < |kinds| :: Printable(u, kinds[i])
  }

  /** The block that the lines stand for. */
  function BlockOf(kinds: seq<LineKind>, isChild: bool): Result<Block, ScriptError> {
    match After(kinds, isChild, |kinds|)
    case Err(error) => Err(error)
    case Ok(s) => Ok(Finish(s))
  }

  lemma LinesRead(u: Unicode, kinds: seq<LineKind>, isChild: bool)
    requires Lawful(u) && AllPrintable(u, kinds)
    ensures Kinds(u, PrintLines(kinds)) == kinds && FenceFree(PrintLines(kinds))
    ensures ParseBlock(u, PrintLines(kinds), isChild) == BlockOf(kinds, isChild) && BlockOf(kinds, isChild).Ok?
  {
    forall i | 0 <= i < |kinds|
      ensures Classify(u, PrintLines(kinds)[i]) == kinds[i] && PrintLines(kinds)[i] != FENCE
    {
      LineReads(u, kinds[i]);
    }
    BlockFailsAtFirstBadLine(kinds, isChild, |kinds|);
  }

  /** The first line that is not blank opens frontmatter. */
  lemma {:induction false} LinesLookLikeFrontmatter(u: Unicode, kinds: seq<LineKind>)
    requires Lawful(u) && AllPrintable(u, kinds)
    ensures LooksLikeFrontmatter(u, PrintLines(kinds)) <==> exists i :: 0 <= i < |kinds| && kinds[i] != Blank
  {
    if kinds != [] {
      var lines := PrintLines(kinds);
      assert lines[1..] == PrintLines(kinds[1..]);
      if kinds[0] == Blank {
        TrimNothing(u, "");
        LinesLookLikeFrontmatter(u, kinds[1..]);
        assert (exists i :: 0 <= i < |kinds| && kinds[i] != Blank) <==>
          exists i :: 0 <= i < |kinds[1..]| && kinds[1..][i] != Blank by {
          if exists i :: 0 <= i < |kinds| && kinds[i] != Blank {
            var i :| 0 <= i < |kinds| && kinds[i] != Blank;
            assert kinds[1..][i - 1] == kinds[i];
          }
        }
      } else {
        LineLooksLikeFrontmatter(u, kinds[0]);
      }
    }
  }

  /** A written line that is not blank is tight, and shows what it is. */
  lemma LineLooksLikeFrontmatter(u: Unicode, kind: LineKind)
    requires Lawful(u) && Printable(u, kind) && kind != Blank
    ensures var line := PrintLine(kind);
      Trim(u, line) == line && line != [] && line[0] != '!' && (':' in line || line[0] == '?' || line[0] == '@')
  {
    var line := PrintLine(kind);
    match kind {
      case AnnotationLine(key, value) =>
        EntryIsTight(u, key, value);
        assert line[|line| - 1] == EntryText(key, value)[|EntryText(key, value)| - 1];
      case GuardLine(text) => assert line[|line| - 1] == text[|text| - 1];
      case FieldLine(field) =>
        PrintIsTight(u, field.pattern);
        EntryIsTight(u, field.key, Print(field.pattern));
    }
    TrimNothing(u, line);
  }

  // Whole scripts.

  /** A further clause as it is written: the lines of its block, and its body. */
  datatype WrittenSection = WrittenSection(block: seq<LineKind>, body: seq<string>)

  datatype Written = Written(
    extension: Option<string>,
    base: seq<LineKind>,
    first: seq<string>,
    sections: seq<WrittenSection>)

  function ExtensionLines(extension: Option<string>): seq<string> {
    match extension
    case None => []
    case Some(name) => ["! " + name]
  }

  function SectionsOf(sections: seq<WrittenSection>): (out: seq<Section>)
    ensures |out| == |sections|
  {
    seq(|sections|, i requires 0 <= i < |sections| => Section(PrintLines(sections[i].block), sections[i].body))
  }

  function PrintScript(w: Written): seq<string> {
    var header, rest := ExtensionLines(w.extension) + PrintLines(w.base), Parts(w.first, SectionsOf(w.sections));
    [FENCE] + (header + ([FENCE] + Assemble(rest)))
  }

  /** Every line keeps its shape, and the cut finds the bodies and blocks that were written. */
  ghost predicate ScriptWritable(u: Unicode, w: Written) {
    && (w.extension.Some? ==> Tight(u, w.extension.value))
    && AllPrintable(u, w.base)
    && (forall k | 0 <= k < |w.sections| :: AllPrintable(u, w.sections[k].block))
    && Clean(u, Parts(w.first, SectionsOf(w.sections)))
  }

  /** The clauses the script was written for. */
  function WrittenClauses(w: Written): Result<seq<Clause>, ScriptError> {
    match BlockOf(w.base, false)
    case Err(error) => Err(error)
    case Ok(base) => Prepended([BaseClause(base, w.first)], WrittenSectionClauses(base, w.sections, 0))
  }

  function WrittenSectionClauses(base: Block, sections: seq<WrittenSection>, n: nat): Result<seq<Clause>, ScriptError>
    requires n <= |sections|
    decreases |sections| - n
  {
    if n == |sections| then Ok([])
    else
      match BlockOf(sections[n].block, true)
      case Err(error) => Err(error)
      case Ok(child) => Prepended([InheritingClause(base, child, sections[n].body)],
        WrittenSectionClauses(base, sections, n + 1))
  }

  lemma {:induction false} SectionsRead(u: Unicode, base: Block, sections: seq<WrittenSection>, n: nat)
    requires Lawful(u) && n <= |sections| && forall k | 0 <= k < |sections| :: AllPrintable(u, sections[k].block)
    ensures SectionClauses(u, base, SectionsOf(sections), n) == WrittenSectionClauses(base, sections, n)
    ensures WrittenSectionClauses(base, sections, n).Ok?
    decreases |sections| - n
  {
    hide ParseBlock, BlockOf, InheritingClause;
    if n < |sections| {
      SectionsRead(u, base, sections, n + 1);
      LinesRead(u, sections[n].block, true);
    }
  }

  // The header of a written script: the declaration, and the blank lines before the base block.

  function LeadingBlanks(kinds: seq<LineKind>): (n: nat)
    ensures n <= |kinds|
  {
    if kinds == [] || kinds[0] != Blank then 0 else 1 + LeadingBlanks(kinds[1..])
  }

  lemma {:induction false} BlanksAreHeader(u: Unicode, kinds: seq<LineKind>)
    requires Lawful(u) && AllPrintable(u, kinds)
    ensures var lines, n := PrintLines(kinds), LeadingBlanks(kinds);
      HeaderLength(u, lines) == n && DeclaredNames(u, lines[..n]) == [] && lines[n..] == PrintLines(kinds[n..])
  {
    var lines := PrintLines(kinds);
    if kinds != [] {
      assert lines[1..] == PrintLines(kinds[1..]);
      if kinds[0] == Blank {
        TrimNothing(u, "");
        BlanksAreHeader(u, kinds[1..]);
        var n := LeadingBlanks(kinds[1..]);
        assert lines[..n + 1][1..] == lines[1..][..n];
        assert DeclaredNames(u, lines[..n + 1]) == [] + DeclaredNames(u, lines[1..][..n]);
      } else {
        LineLooksLikeFrontmatter(u, kinds[0]);
      }
    }
  }

  /** A blank line at the start changes nothing in a block. */
  lemma {:induction false} BlankSaysNothing(kinds: seq<LineKind>, isChild: bool, n: nat)
    requires n < |kinds| && kinds[0] == Blank
    ensures After(kinds, isChild, n + 1) == After(kinds[1..], isChild, n)
  {
    if n == 0 {
      assert After(kinds, isChild, 0) == Ok(START);
    } else {
      BlankSaysNothing(kinds, isChild, n - 1);
    }
  }

  lemma {:induction false} BlockWithoutBlanks(kinds: seq<LineKind>, isChild: bool)
    ensures BlockOf(kinds[LeadingBlanks(kinds)..], isChild) == BlockOf(kinds, isChild)
  {
    if kinds != [] && kinds[0] == Blank {
      hide After;
      BlankSaysNothing(kinds, isChild, |kinds| - 1);
      BlockWithoutBlanks(kinds[1..], isChild);
      assert kinds[1..][LeadingBlanks(kinds[1..])..] == kinds[LeadingBlanks(kinds)..];
    } else {
      assert kinds[0..] == kinds;
    }
  }

  lemma HeaderReads(u: Unicode, w: Written)
    requires Lawful(u) && ScriptWritable(u, w)
    ensures var header := ExtensionLines(w.extension) + PrintLines(w.base);
      && FenceFree(header)
      && Extension(u, header) == Ok(w.extension)
      && header[HeaderLength(u, header)..] == PrintLines(w.base[LeadingBlanks(w.base)..])
  {
    var lines := PrintLines(w.base);
    var header := ExtensionLines(w.extension) + lines;
    LinesRead(u, w.base, false);
    BlanksAreHeader(u, w.base);
    if w.extension.Some? {
      DeclarationReads(u, w.extension.value, lines);
    } else {
      assert header == lines;
    }
  }

  lemma DeclarationReads(u: Unicode, name: string, lines: seq<string>)
    requires Lawful(u) && Tight(u, name) && FenceFree(lines)
    requires DeclaredNames(u, lines[..HeaderLength(u, lines)]) == []
    ensures var header, n := ["! " + name] + lines, HeaderLength(u, lines);
      && FenceFree(header) && HeaderLength(u, header) == n + 1 && header[n + 1..] == lines[n..]
      && Extension(u, header) == Ok(Some(name))
  {
    var line, n := "! " + name, HeaderLength(u, lines);
    var header := [line] + lines;
    assert header[1..] == lines && header[..n + 1][1..] == lines[..n] && line[1..] == " " + name;
    assert line[|line| - 1] == name[|name| - 1];
    TrimNothing(u, line);
    TrimSpaceBefore(u, name);
    assert HeaderLength(u, header) == 1 + HeaderLength(u, header[1..]);
    assert DeclaredNames(u, header[..n + 1]) == [name] + DeclaredNames(u, lines[..n]) == [name];
    ExtensionIff(u, header);
  }

  lemma FirstFence(header: seq<string>, rest: seq<string>)
    requires FenceFree(header)
    ensures var lines := [FENCE] + (header + ([FENCE] + rest));
      && FenceIn(lines[1..]) == |header| && |header| + 1 < |lines|
      && lines[1..|header| + 1] == header && lines[|header| + 2..] == rest
  {
    var lines := [FENCE] + (header + ([FENCE] + rest));
    FenceAfter(header, rest);
    assert lines[1..] == header + ([FENCE] + rest);
  }

  /** A written script is read as the clauses it was written for. */
  lemma ScriptRoundTrip(u: Unicode, path: string, w: Written)
    requires Lawful(u) && ScriptWritable(u, w)
    ensures WrittenClauses(w).Ok?
    ensures ParseScript(u, path, PrintScript(w)) == Ok(Script(path, w.extension, WrittenClauses(w).value))
  {
    hide ParseScript, ParseBody, Cut, Assemble, Extension, HeaderLength, BlockOf, ParseBlock, SectionClauses,
      WrittenSectionClauses, Kinds, LeadingBlanks, Printable;
    var header := ExtensionLines(w.extension) + PrintLines(w.base);
    var parts := Parts(w.first, SectionsOf(w.sections));
    HeaderReads(u, w);
    LinesRead(u, w.base, false);
    LinesRead(u, w.base[LeadingBlanks(w.base)..], false);
    BlockWithoutBlanks(w.base, false);
    var base := BlockOf(w.base, false).value;
    BodyReads(u, base, w);
    HeadedScript(u, path, header, Assemble(parts), w.extension, base, WrittenClauses(w).value);
  }

  lemma BodyReads(u: Unicode, base: Block, w: Written)
    requires Lawful(u) && ScriptWritable(u, w)
    ensures var clauses := Prepended([BaseClause(base, w.first)], WrittenSectionClauses(base, w.sections, 0));
      clauses.Ok? && ParseBody(u, base, Assemble(Parts(w.first, SectionsOf(w.sections)))) == clauses
  {
    hide Cut, Assemble, SectionClauses, WrittenSectionClauses;
    CutUndoesAssemble(u, Parts(w.first, SectionsOf(w.sections)));
    SectionsRead(u, base, w.sections, 0);
  }

  lemma HeadedScript(u: Unicode, path: string, header: seq<string>, rest: seq<string>, extension: Option<string>,
      base: Block, clauses: seq<Clause>)
    requires FenceFree(header) && Extension(u, header) == Ok(extension)
    requires ParseBlock(u, header[HeaderLength(u, header)..], false) == Ok(base)
    requires ParseBody(u, base, rest) == Ok(clauses)
    ensures ParseScript(u, path, [FENCE] + (header + ([FENCE] + rest))) == Ok(Script(path, extension, clauses))
  {
    hide Extension, HeaderLength, ParseBlock, ParseBody;
    FirstFence(header, rest);
  }

  /** The block has a line that is not blank, and the body has no fence. */
  ghost predicate PlainSection(s: WrittenSection) {
    FenceFree(s.body) && exists i :: 0 <= i < |s.block| && s.block[i] != Blank
  }

  /** Bodies without fences open no block, so a script with such bodies is writable. */
  lemma FenceFreeIsWritable(u: Unicode, w: Written)
    requires Lawful(u) && (w.extension.Some? ==> Tight(u, w.extension.value)) && AllPrintable(u, w.base)
    requires FenceFree(w.first) && forall k | 0 <= k < |w.sections| ::
        AllPrintable(u, w.sections[k].block) && PlainSection(w.sections[k])
    ensures ScriptWritable(u, w)
  {
    PlainIsClean(u, w.first, w.sections);
  }

  lemma {:induction false} PlainIsClean(u: Unicode, first: seq<string>, sections: seq<WrittenSection>)
    requires Lawful(u) && FenceFree(first)
    requires forall k | 0 <= k < |sections| :: AllPrintable(u, sections[k].block) && PlainSection(sections[k])
    ensures Clean(u, Parts(first, SectionsOf(sections)))
    decreases |sections|
  {
    hide StartsBlock, Undisturbed, LooksLikeFrontmatter, ParseBlock, BlockOf, Kinds, Printable;
    var parts := Parts(first, SectionsOf(sections));
    FenceFreeIsUndisturbed(u, first, Assembled(parts.sections));
    if sections != [] {
      LinesRead(u, sections[0].block, true);
      LinesLookLikeFrontmatter(u, sections[0].block);
      PlainIsClean(u, sections[0].body, sections[1..]);
      assert SectionsOf(sections)[1..] == SectionsOf(sections[1..]);
    }
  }

  // A script whose base repeats a key.

  function NumberLine(key: string, n: i64): LineKind {
    FieldLine(Field(key, NumberLiteral(n)))
  }

  /** The base asks for `a` and for `b` under one key; the further clause asks for `c`. */
  function RepeatingScript(key: string, a: i64, b: i64, c: i64): Written {
    Written(None, [NumberLine(key, a), NumberLine(key, b)], [], [WrittenSection([NumberLine(key, c)], [])])
  }

  lemma RepeatingClauses(key: string, a: i64, b: i64, c: i64)
    ensures var clauses := WrittenClauses(RepeatingScript(key, a, b, c));
      clauses.Ok? && |clauses.value| == 2 &&
      clauses.value[1].policy == [Field(key, NumberLiteral(c)), Field(key, NumberLiteral(b))]
  {
    var w := RepeatingScript(key, a, b, c);
    TwoFields(key, a, b);
    OneField(key, c);
    var base, child := BlockOf(w.base, false).value, BlockOf(w.sections[0].block, true).value;
    RepeatedKeySurvives(key, NumberLiteral(a), NumberLiteral(b), NumberLiteral(c));
    assert WrittenSectionClauses(base, w.sections, 1) == Ok([]);
    assert WrittenSectionClauses(base, w.sections, 0) == Ok([InheritingClause(base, child, [])] + []);
  }

  lemma TwoFields(key: string, a: i64, b: i64)
    ensures var block := BlockOf([NumberLine(key, a), NumberLine(key, b)], false);
      block.Ok? && block.value.fields == [Field(key, NumberLiteral(a)), Field(key, NumberLiteral(b))]
  {
    hide After;
    var kinds := [NumberLine(key, a), NumberLine(key, b)];
    BlockFailsAtFirstBadLine(kinds, false, 2);
    FieldsAndGuardsInOrder(kinds, false, 2);
    assert FieldsOf(kinds, 1) == FieldsOf(kinds, 0) + [kinds[0].field] == [kinds[0].field];
    assert FieldsOf(kinds, 2) == FieldsOf(kinds, 1) + [kinds[1].field];
  }

  lemma OneField(key: string, c: i64)
    ensures var block := BlockOf([NumberLine(key, c)], true);
      block.Ok? && block.value.fields == [Field(key, NumberLiteral(c))]
  {
    var kinds := [NumberLine(key, c)];
    BlockFailsAtFirstBadLine(kinds, true, 1);
    FieldsAndGuardsInOrder(kinds, true, 1);
    assert FieldsOf(kinds, 1) == FieldsOf(kinds, 0) + [kinds[0].field];
  }

  /**
   The parser accepts such a script, and its further clause does not override the key: an event that holds
   what it asks for is not matched, because the base's second pattern is still in force.
   */
  lemma RepeatedKeyIsNotOverridden(u: Unicode, path: string, key: string, a: i64, b: i64, c: i64)
    requires Lawful(u) && IsIdentifier(u, key) && b != c
    ensures var script := ParseScript(u, path, PrintScript(RepeatingScript(key, a, b, c)));
      && script.Ok?
      && |script.value.clauses| == 2
      && script.value.clauses[1].policy == [Field(key, NumberLiteral(c)), Field(key, NumberLiteral(b))]
      && MatchFields(script.value.clauses[1].policy, map[key := Number(c)]) == None
  {
    hide ParseScript, PrintScript, WrittenClauses;
    var w := RepeatingScript(key, a, b, c);
    assert w.sections[0].block[0] != Blank;
    FenceFreeIsWritable(u, w);
    ScriptRoundTrip(u, path, w);
    RepeatingClauses(key, a, b, c);
    PolicyMatchIff([Field(key, NumberLiteral(c)), Field(key, NumberLiteral(b))], map[key := Number(c)]);
    assert !FieldMatches(Field(key, NumberLiteral(b)), map[key := Number(c)]);
  }
}
