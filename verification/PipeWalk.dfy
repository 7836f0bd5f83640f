/**
 The pipe finder on printed texts.

 The pipe finder counts brackets and does not know about quotes.  It walks over a text without pipes and
 brackets as if it were not there, and over whatever is properly bracketed; the separator of a head and tail
 list is seen at the top level and passed over inside brackets.
 */
module PipeWalk {
  import opened Wrappers
  import opened Patterns
  import opened PatternParser
  import opened PatternPrinter

  predicate PipeFree(s: string) {
    forall i | 0 <= i < |s| :: s[i] != '|' && !Opens(s[i]) && !Closes(s[i])
  }

  /** No string in the pattern holds a pipe or a bracket. */
  ghost predicate Quiet(p: Pattern) {
    match p
    case StringLiteral(text) => PipeFree(text)
    case ListOf(HeadTail(head, tail)) => Quiet(head) && Quiet(tail)
    case ListOf(Elements(patterns)) => forall i | 0 <= i < |patterns| :: Quiet(patterns[i])
    case MapOf(entries) => forall i | 0 <= i < |entries| :: Quiet(entries[i].pattern)
    case _ => true
  }

  /** Each string that some list encloses is without pipes and brackets. */
  ghost predicate ListsAreQuiet(p: Pattern) {
    match p
    case ListOf(_) => Quiet(p)
    case MapOf(entries) => forall i | 0 <= i < |entries| :: ListsAreQuiet(entries[i].pattern)
    case _ => true
  }

  function Shift(n: nat, at: Option<nat>): Option<nat> {
    if at.Some? then Some(n + at.value) else None
  }

  /** The pipe finder walks over the text without finding anything. */
  ghost predicate Passes(t: string) {
    forall rest: string, depth: nat :: PipeFrom(t + rest, depth) == Shift(|t|, PipeFrom(rest, depth))
  }

  ghost predicate PassesInside(t: string) {
    forall rest: string, depth: nat | depth > 0 :: PipeFrom(t + rest, depth) == Shift(|t|, PipeFrom(rest, depth))
  }

  lemma {:induction false} PipeFreePasses(t: string, rest: string, depth: nat)
    requires PipeFree(t)
    ensures PipeFrom(t + rest, depth) == Shift(|t|, PipeFrom(rest, depth))
  {
    if t == [] {
      assert t + rest == rest;
    } else {
      assert (t + rest)[1..] == t[1..] + rest;
      PipeFreePasses(t[1..], rest, depth);
    }
  }

  lemma AllPipeFreePass(t: string)
    requires PipeFree(t)
    ensures Passes(t)
  {
    forall rest: string, depth: nat ensures PipeFrom(t + rest, depth) == Shift(|t|, PipeFrom(rest, depth)) {
      PipeFreePasses(t, rest, depth);
    }
  }

  lemma PassesAt(t: string, rest: string, depth: nat)
    requires Passes(t)
    ensures PipeFrom(t + rest, depth) == Shift(|t|, PipeFrom(rest, depth))
  {
  }

  lemma ConcatPassesAt(a: string, b: string, rest: string, depth: nat, whole: Option<nat>, later: Option<nat>,
      last: Option<nat>)
    requires whole == PipeFrom(a + (b + rest), depth)
    requires whole == Shift(|a|, later) && later == Shift(|b|, last)
    ensures PipeFrom((a + b) + rest, depth) == Shift(|a + b|, last)
  {
    assert (a + b) + rest == a + (b + rest);
  }

  lemma PassesConcat(a: string, b: string)
    requires Passes(a) && Passes(b)
    ensures Passes(a + b)
  {
    forall rest: string, depth: nat ensures PipeFrom((a + b) + rest, depth) == Shift(|a + b|, PipeFrom(rest, depth)) {
      PassesAt(a, b + rest, depth);
      PassesAt(b, rest, depth);
      ConcatPassesAt(a, b, rest, depth, PipeFrom(a + (b + rest), depth), PipeFrom(b + rest, depth),
        PipeFrom(rest, depth));
    }
  }

  lemma PassesInsideAt(t: string, rest: string, depth: nat)
    requires PassesInside(t) && depth > 0
    ensures PipeFrom(t + rest, depth) == Shift(|t|, PipeFrom(rest, depth))
  {
  }

  lemma BracketsPassAt(open: char, inner: string, close: char, rest: string, depth: nat)
    requires Opens(open) && Closes(close)
    requires PipeFrom(inner + ([close] + rest), depth + 1) == Shift(|inner|, PipeFrom([close] + rest, depth + 1))
    ensures PipeFrom(([open] + inner + [close]) + rest, depth) == Shift(|inner| + 2, PipeFrom(rest, depth))
  {
    hide PipeFrom;
    BracketStep(open, inner + ([close] + rest), depth);
    BracketStep(close, rest, depth + 1);
    assert ([open] + inner + [close]) + rest == [open] + (inner + ([close] + rest));
  }

  lemma BracketStep(c: char, rest: string, depth: nat)
    ensures Opens(c) ==> PipeFrom([c] + rest, depth) == Shift(1, PipeFrom(rest, depth + 1))
    ensures Closes(c) && depth > 0 ==> PipeFrom([c] + rest, depth) == Shift(1, PipeFrom(rest, depth - 1))
  {
    assert ([c] + rest)[1..] == rest;
  }

  lemma BracketsPass(open: char, inner: string, close: char)
    requires Opens(open) && Closes(close) && PassesInside(inner)
    ensures Passes([open] + inner + [close])
  {
    forall rest: string, depth: nat
      ensures PipeFrom(([open] + inner + [close]) + rest, depth) ==
        Shift(|[open] + inner + [close]|, PipeFrom(rest, depth))
    {
      PassesInsideAt(inner, [close] + rest, depth + 1);
      BracketsPassAt(open, inner, close, rest, depth);
    }
  }

  lemma {:induction false} JoinPasses(texts: seq<string>)
    requires forall i | 0 <= i < |texts| :: Passes(texts[i])
    ensures Passes(Join(texts))
  {
    AllPipeFreePass("");
    if |texts| > 1 {
      JoinPasses(texts[1..]);
      AllPipeFreePass(", ");
      PassesConcat(", ", Join(texts[1..]));
      PassesConcat(texts[0], ", " + Join(texts[1..]));
    }
  }

  /** The separator, seen from a given depth. */
  lemma SeparatorAt(head: string, tail: string, rest: string, depth: nat)
    requires Passes(head) && Passes(tail)
    ensures PipeFrom(HeadTailText(head, tail) + rest, depth) ==
      if depth == 0 then Some(|head| + 1) else Shift(|head| + 3 + |tail|, PipeFrom(rest, depth))
  {
    hide PipeFrom;
    PassesAt(head, " " + ("|" + (" " + (tail + rest))), depth);
    PassesAt(tail, rest, depth);
    BarAt(tail + rest, depth);
    SeparatorText(head, tail, rest);
    SeparatorSum(HeadTailText(head, tail) + rest, head, " " + ("|" + (" " + (tail + rest))), depth, |tail|,
      PipeFrom(rest, depth));
  }

  lemma SeparatorSum(text: string, head: string, later: string, depth: nat, n: nat, last: Option<nat>)
    requires text == head + later && PipeFrom(head + later, depth) == Shift(|head|, PipeFrom(later, depth))
    requires PipeFrom(later, depth) == if depth == 0 then Some(1) else Shift(3, Shift(n, last))
    ensures PipeFrom(text, depth) == if depth == 0 then Some(|head| + 1) else Shift(|head| + 3 + n, last)
  {
  }

  lemma SeparatorText(head: string, tail: string, rest: string)
    ensures HeadTailText(head, tail) + rest == head + (" " + ("|" + (" " + (tail + rest))))
  {
    assert " | " + tail == " " + ("|" + (" " + tail));
    assert (" " + ("|" + (" " + tail))) + rest == " " + ("|" + (" " + (tail + rest)));
    assert (head + (" | " + tail)) + rest == head + ((" | " + tail) + rest);
  }

  lemma BarAt(later: string, depth: nat)
    ensures PipeFrom(" " + ("|" + (" " + later)), depth) ==
      if depth == 0 then Some(1) else Shift(3, PipeFrom(later, depth))
  {
    PipeSkips(' ', "|" + (" " + later), depth);
    if depth > 0 {
      PipeSkips('|', " " + later, depth);
      PipeSkips(' ', later, depth);
    }
  }

  lemma PipeSkips(c: char, rest: string, depth: nat)
    requires !Opens(c) && !Closes(c) && (c == '|' ==> depth > 0)
    ensures PipeFrom([c] + rest, depth) == Shift(1, PipeFrom(rest, depth))
  {
    assert ([c] + rest)[1..] == rest;
  }

  /** A separator deeper than the top level is passed over. */
  lemma SeparatorPassesInside(head: string, tail: string)
    requires Passes(head) && Passes(tail)
    ensures PassesInside(HeadTailText(head, tail))
  {
    hide PipeFrom;
    var inner := HeadTailText(head, tail);
    forall rest: string, depth: nat | depth > 0
      ensures PipeFrom(inner + rest, depth) == Shift(|inner|, PipeFrom(rest, depth))
    {
      SeparatorAt(head, tail, rest, depth);
    }
  }

  lemma IdentifierPasses(u: Unicode, name: string)
    requires Lawful(u) && IsIdentifier(u, name)
    ensures PipeFree(name)
  {
    IdentifierIsTight(u, name);
    forall i | 0 <= i < |name| ensures name[i] != '|' && !Opens(name[i]) && !Closes(name[i]) {
      assert name[i] in name;
    }
  }

  lemma QuietLeafPasses(u: Unicode, p: Pattern)
    requires Lawful(u) && Writable(u, p) && Quiet(p) && !p.ListOf? && !p.MapOf?
    ensures PipeFree(Print(p))
  {
    match p {
      case EnumPattern(name) => IdentifierPasses(u, name);
      case Variable(name) => IdentifierPasses(u, name);
      case Pin(name) => IdentifierPasses(u, name);
      case NumberLiteral(n) =>
        IntRead(n);
        forall i | 0 <= i < |IntText(n)|
          ensures IntText(n)[i] != '|' && !Opens(IntText(n)[i]) && !Closes(IntText(n)[i])
        {
          assert IntText(n)[i] in IntText(n);
        }
      case _ =>
    }
  }

  lemma {:induction false} QuietPasses(u: Unicode, p: Pattern)
    requires Lawful(u) && Writable(u, p) && Quiet(p)
    ensures Passes(Print(p))
    decreases p
  {
    match p {
      case ListOf(Empty) =>
        AllPipeFreePass("");
        BracketsPass('[', "", ']');
        assert Print(p) == ['['] + "" + [']'];
      case ListOf(HeadTail(head, tail)) =>
        QuietPasses(u, head);
        QuietPasses(u, tail);
        SeparatorPassesInside(Print(head), Print(tail));
        BracketsPass('[', HeadTailText(Print(head), Print(tail)), ']');
      case ListOf(Elements(patterns)) =>
        QuietTextsPass(u, patterns);
        JoinPasses(Texts(patterns));
        BracketsPass('[', Join(Texts(patterns)), ']');
      case MapOf(entries) =>
        QuietEntryTextsPass(u, entries);
        JoinPasses(EntryTexts(entries));
        BracketsPass('{', Join(EntryTexts(entries)), '}');
      case _ =>
        QuietLeafPasses(u, p);
        AllPipeFreePass(Print(p));
    }
  }

  lemma {:induction false} QuietTextsPass(u: Unicode, patterns: seq<Pattern>)
    requires Lawful(u) && forall i | 0 <= i < |patterns| :: Writable(u, patterns[i]) && Quiet(patterns[i])
    ensures forall i | 0 <= i < |patterns| :: Passes(Texts(patterns)[i])
    decreases patterns
  {
    forall i | 0 <= i < |patterns| ensures Passes(Texts(patterns)[i]) {
      TextsAt(patterns, i);
      QuietPasses(u, patterns[i]);
    }
  }

  lemma {:induction false} QuietEntryTextsPass(u: Unicode, entries: Fields)
    requires Lawful(u)
    requires forall i | 0 <= i < |entries| ::
      IsIdentifier(u, entries[i].key) && Writable(u, entries[i].pattern) && Quiet(entries[i].pattern)
    ensures forall i | 0 <= i < |entries| :: Passes(EntryTexts(entries)[i])
    decreases entries
  {
    forall i | 0 <= i < |entries| ensures Passes(EntryTexts(entries)[i]) {
      EntryTextsAt(entries, i);
      IdentifierPasses(u, entries[i].key);
      AllPipeFreePass(entries[i].key);
      AllPipeFreePass(": ");
      QuietPasses(u, entries[i].pattern);
      PassesConcat(": ", Print(entries[i].pattern));
      PassesConcat(entries[i].key, ": " + Print(entries[i].pattern));
    }
  }

  lemma PassedHasNoPipe(t: string)
    requires Passes(t)
    ensures PipeFrom(t, 0) == None
  {
    var nothing: string := [];
    assert t + nothing == t;
    assert PipeFrom(t + nothing, 0) == Shift(|t|, PipeFrom(nothing, 0));
  }

  lemma {:induction false} PipeStays(s: string, rest: string, depth: int)
    requires PipeFrom(s, depth).Some?
    ensures PipeFrom(s + rest, depth) == PipeFrom(s, depth)
  {
    assert (s + rest)[1..] == s[1..] + rest;
    if !(s[0] == '|' && depth == 0) {
      PipeStays(s[1..], rest, if Opens(s[0]) then depth + 1 else if Closes(s[0]) then depth - 1 else depth);
    }
  }
}
