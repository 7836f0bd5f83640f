/** When a printed pattern is read back. */
module PatternRoundTrip {
  import opened Wrappers
  import opened Patterns
  import opened PatternParser
  import opened PatternPrinter
  import opened PatternReading
  import opened PipeWalk

  /**
   A writable pattern is read back from its printed text exactly when, at each list in it, the pipe finder
   sees the separator and nothing else.
   */
  lemma {:induction false} RoundTrip(u: Unicode, p: Pattern)
    requires Lawful(u) && Writable(u, p)
    ensures ParsePattern(u, Print(p)) == Parsed(p) <==> PipesFound(p)
    decreases p
  {
    hide ParsePattern, PipeFrom;
    match p {
      case ListOf(Empty) => EmptyBrackets(u);
      case ListOf(HeadTail(head, tail)) =>
        RoundTrip(u, head);
        RoundTrip(u, tail);
        HeadTailRead(u, head, tail);
      case ListOf(Elements(patterns)) =>
        forall i | 0 <= i < |patterns|
          ensures ParsePattern(u, Print(patterns[i])) == Parsed(patterns[i]) <==> PipesFound(patterns[i])
        {
          RoundTrip(u, patterns[i]);
        }
        if PipeFrom(Join(Texts(patterns)), 0) == None {
          ElementsRead(u, patterns);
        } else {
          PipedElementsMisread(u, patterns);
        }
      case MapOf(entries) =>
        forall i | 0 <= i < |entries|
          ensures ParsePattern(u, Print(entries[i].pattern)) == Parsed(entries[i].pattern) <==>
            PipesFound(entries[i].pattern)
        {
          RoundTrip(u, entries[i].pattern);
        }
        if entries == [] { EmptyBrackets(u); } else { MapReads(u, entries); }
      case _ => LeafReads(u, p);
    }
  }

  lemma {:induction false} QuietPipesFound(u: Unicode, p: Pattern)
    requires Lawful(u) && Writable(u, p) && Quiet(p)
    ensures PipesFound(p)
    decreases p
  {
    match p {
      case ListOf(HeadTail(head, tail)) =>
        QuietPipesFound(u, head);
        QuietPipesFound(u, tail);
        QuietPasses(u, head);
        QuietPasses(u, tail);
        SeparatorAt(Print(head), Print(tail), [], 0);
        assert HeadTailText(Print(head), Print(tail)) + [] == HeadTailText(Print(head), Print(tail));
      case ListOf(Elements(patterns)) =>
        forall i | 0 <= i < |patterns| ensures PipesFound(patterns[i]) { QuietPipesFound(u, patterns[i]); }
        QuietTextsPass(u, patterns);
        JoinPasses(Texts(patterns));
        PassedHasNoPipe(Join(Texts(patterns)));
      case MapOf(entries) =>
        forall i | 0 <= i < |entries| ensures PipesFound(entries[i].pattern) { QuietPipesFound(u, entries[i].pattern); }
      case _ =>
    }
  }

  lemma {:induction false} QuietListsPipesFound(u: Unicode, p: Pattern)
    requires Lawful(u) && Writable(u, p) && ListsAreQuiet(p)
    ensures PipesFound(p)
    decreases p
  {
    match p {
      case ListOf(_) => QuietPipesFound(u, p);
      case MapOf(entries) =>
        forall i | 0 <= i < |entries|
          ensures PipesFound(entries[i].pattern)
        {
          QuietListsPipesFound(u, entries[i].pattern);
        }
      case _ =>
    }
  }

  /** Strings without pipes and brackets under lists are enough for the round trip, at any nesting. */
  lemma QuietRoundTrip(u: Unicode, p: Pattern)
    requires Lawful(u) && Writable(u, p) && ListsAreQuiet(p)
    ensures ParsePattern(u, Print(p)) == Parsed(p)
  {
    QuietListsPipesFound(u, p);
    RoundTrip(u, p);
  }

  /** The exclusion is needed: a string with a pipe in a list is not read back. */
  lemma PipeInListIsLost(u: Unicode, text: string)
    requires Lawful(u) && Quotable(text) && PipeFrom(text, 0).Some?
    ensures ParsePattern(u, Print(ListOf(Elements([StringLiteral(text)])))) !=
      Parsed(ListOf(Elements([StringLiteral(text)])))
  {
    var p := ListOf(Elements([StringLiteral(text)]));
    var quoted := Print(StringLiteral(text));
    assert Texts([StringLiteral(text)]) == [quoted];
    assert quoted[1..] == text + [QuoteFor(text)];
    PipeStays(text, [QuoteFor(text)], 0);
    assert WritableInside(u, StringLiteral(text));
    RoundTrip(u, p);
  }
}
