/** Which lines of a block say what (`crates/luaml/src/parser.rs`). */
module LineGrammar {
  import opened PatternParser
  import opened PatternGrammar
  import opened PatternPanics
  import opened Frontmatter

  /** The line is `left`, the first colon, and `right`, with white space around both. */
  ghost predicate ColonAt(u: Unicode, s: string, left: string, right: string, c: nat) {
    && c < |s| && s[c] == ':' && ':' !in s[..c]
    && Padded(u, s[..c], left) && Padded(u, s[c + 1..], right)
  }

  ghost predicate ColonSplit(u: Unicode, s: string, left: string, right: string) {
    exists c: nat :: ColonAt(u, s, left, right, c)
  }

  /** What a line without outer white space says. */
  ghost predicate Says(u: Unicode, s: string, kind: LineKind) {
    match kind
    case Blank => s == ""
    case AnnotationLine(key, value) => s != "" && s[0] == '@' && ColonSplit(u, s[1..], key, value)
    case GuardLine(text) => s != "" && s[0] == '?' && Padded(u, s[1..], text) && text != ""
    case FieldLine(field) =>
      && IsFieldText(s)
      && exists value | ColonSplit(u, s, field.key, value) ::
          value != "" && Reads(u, value, field.pattern)
    case Bad(error) =>
      match error
      case MisplacedExtension => s != "" && s[0] == '!'
      case AnnotationWithoutValue => s != "" && s[0] == '@' && ':' !in s[1..]
      case EmptyGuard => s != "" && s[0] == '?' && Padded(u, s[1..], "")
      case LineWithoutColon => IsFieldText(s) && ':' !in s
      case FieldWithoutValue => IsFieldText(s) && exists key :: ColonSplit(u, s, key, "")
      case PatternPanics =>
        IsFieldText(s) && exists key, value | ColonSplit(u, s, key, value) :: value != "" && PanicsAt(u, value)
      case BadPattern(_) =>
        IsFieldText(s) && exists key, value | ColonSplit(u, s, key, value) ::
          value != "" && !PanicsAt(u, value) && forall p :: !Reads(u, value, p)
      case _ => false
  }

  /** The first character does not mark an extension, an annotation or a guard. */
  predicate IsFieldText(s: string) {
    s != "" && s[0] != '!' && s[0] != '@' && s[0] != '?'
  }

  lemma ColonIff(u: Unicode, s: string, left: string, right: string)
    ensures ColonSplit(u, s, left, right) <==>
      var c := IndexOf(s, ':');
      c < |s| && left == Trim(u, s[..c]) && right == Trim(u, s[c + 1..])
    ensures IndexOf(s, ':') == |s| <==> ':' !in s
  {
    hide Padded, Trim;
    var c := IndexOf(s, ':');
    FirstIndex(s, ':');
    assert s[..|s|] == s;
    if c < |s| {
      PaddedIff(u, s[..c], left);
      PaddedIff(u, s[c + 1..], right);
      assert left == Trim(u, s[..c]) && right == Trim(u, s[c + 1..]) ==> ColonAt(u, s, left, right, c);
      assert s[c] in s;
    }
    if d: nat :| ColonAt(u, s, left, right, d) {
      IndexIs(s, ':', d);
    }
  }

  /** The kinds agree, up to the words of a pattern error. */
  predicate SameKind(a: LineKind, b: LineKind) {
    a == b || (a.Bad? && b.Bad? && a.error.BadPattern? && b.error.BadPattern?)
  }

  /** Every line says exactly one thing, and the parser takes it for that. */
  lemma LineIff(u: Unicode, line: string, kind: LineKind)
    requires Lawful(u)
    ensures SameKind(Classify(u, line), kind) <==> exists s | Padded(u, line, s) :: Says(u, s, kind)
  {
    hide Says, Padded, Classify, Lawful;
    var s := Trim(u, line);
    forall t ensures Padded(u, line, t) <==> t == s { PaddedIff(u, line, t); }
    TrimmedLineIff(u, line, kind);
  }

  lemma TrimmedLineIff(u: Unicode, line: string, kind: LineKind)
    requires Lawful(u)
    ensures SameKind(Classify(u, line), kind) <==> Says(u, Trim(u, line), kind)
  {
    hide ParsePattern, Padded, ColonSplit, Reads, PanicsAt, Lawful;
    var s := Trim(u, line);
    if s != "" && s[0] == '@' { AnnotationIff(u, s, line, kind); }
    else if s != "" && s[0] == '?' { GuardIff(u, s, line, kind); }
    else if IsFieldText(s) { FieldIff(u, s, line, kind); }
  }

  lemma AnnotationIff(u: Unicode, s: string, line: string, kind: LineKind)
    requires s == Trim(u, line) && s != "" && s[0] == '@'
    ensures SameKind(Classify(u, line), kind) <==> Says(u, s, kind)
  {
    hide ParsePattern, Padded, ColonSplit, Reads, PanicsAt, Trim, IndexOf;
    forall key, value ensures ColonSplit(u, s[1..], key, value) <==>
      var c := IndexOf(s[1..], ':'); c < |s[1..]| && key == Trim(u, s[1..][..c]) && value == Trim(u, s[1..][c + 1..])
    {
      ColonIff(u, s[1..], key, value);
    }
    ColonIff(u, s[1..], "", "");
  }

  lemma GuardIff(u: Unicode, s: string, line: string, kind: LineKind)
    requires s == Trim(u, line) && s != "" && s[0] == '?'
    ensures SameKind(Classify(u, line), kind) <==> Says(u, s, kind)
  {
    hide ParsePattern, Padded, ColonSplit, Reads, PanicsAt, Trim, IndexOf;
    forall text ensures Padded(u, s[1..], text) <==> text == Trim(u, s[1..]) { PaddedIff(u, s[1..], text); }
  }

  lemma FieldIff(u: Unicode, s: string, line: string, kind: LineKind)
    requires Lawful(u) && s == Trim(u, line) && IsFieldText(s)
    ensures SameKind(Classify(u, line), kind) <==> Says(u, s, kind)
  {
    hide ParsePattern, Padded, ColonSplit, Reads, PanicsAt, Trim, IndexOf, Lawful;
    forall key, value ensures ColonSplit(u, s, key, value) <==>
      var c := IndexOf(s, ':'); c < |s| && key == Trim(u, s[..c]) && value == Trim(u, s[c + 1..])
    {
      ColonIff(u, s, key, value);
    }
    ColonIff(u, s, "", "");
    var c := IndexOf(s, ':');
    if c < |s| {
      var value := Trim(u, s[c + 1..]);
      assert ColonSplit(u, s, Trim(u, s[..c]), value);
      PanicsIff(u, value);
      if ParsePattern(u, value).Parsed? { ReadsIff(u, value, ParsePattern(u, value).value); }
      forall p ensures ParsePattern(u, value) == Parsed(p) <==> Reads(u, value, p) { ReadsIff(u, value, p); }
    }
  }
}
