/** Whole scripts (`crates/luaml/src/parser.rs`). */
module ScriptParser {
  import opened Wrappers
  import opened Values
  import opened Patterns
  import opened PatternParser
  import opened Clauses
  import opened ScriptSplit
  import opened Frontmatter
  import GuardGrammar
  import GuardLexer
  import Guards

  // Inheritance of fields.

  /** A field written over the first one with its key, or added at the end. */
  function Overridden(fields: Fields, field: Field): Fields {
    var i := FieldAt(fields, field.key);
    if i < |fields| then fields[i := field] else fields + [field]
  }

  /** The first `n` fields of the child written over the base. */
  function Merged(base: Fields, child: Fields, n: nat): Fields
    requires n <= |child|
  {
    if n == 0 then base
    else Overridden(Merged(base, child, n - 1), child[n - 1])
  }

  method MergeFields(base: Fields, child: Fields) returns (merged: Fields)
    ensures merged == Merged(base, child, |child|)
  {
    merged := base;
    for n := 0 to |child|
      invariant merged == Merged(base, child, n)
    {
      var i := FindField(merged, child[n].key);
      if i < |merged| {
        FieldAtIs(merged, child[n].key);
        merged := merged[i := merged[i].(pattern := child[n].pattern)];
      } else {
        merged := merged + [child[n]];
      }
    }
  }

  function KeyList(fields: Fields): (keys: seq<string>)
    ensures |keys| == |fields|
  {
    seq(|fields|, i requires 0 <= i < |fields| => fields[i].key)
  }

  ghost predicate DistinctFields(fields: Fields) {
    forall i, j | 0 <= i < j < |fields| :: fields[i].key != fields[j].key
  }

  /** The pattern of the last of the first `n` fields with a key. */
  function LastWord(fields: Fields, n: nat, key: string): Option<Pattern>
    requires n <= |fields|
  {
    if n == 0 then None
    else if fields[n - 1].key == key then Some(fields[n - 1].pattern)
    else LastWord(fields, n - 1, key)
  }

  /** One field written over others. */
  lemma OverrideOne(fields: Fields, field: Field, key: string)
    ensures Lookup(Overridden(fields, field), key) ==
      if key == field.key then Some(field.pattern) else Lookup(fields, key)
  {
    var next := Overridden(fields, field);
    FieldAtIs(fields, field.key);
    FieldAtIs(fields, key);
    var i := FieldAt(fields, key);
    FieldAtUnique(next, key, if i < |fields| || key == field.key then i else |next|);
  }

  lemma OverrideKeeps(fields: Fields, field: Field)
    ensures KeyList(fields) <= KeyList(Overridden(fields, field))
    ensures DistinctFields(fields) ==> DistinctFields(Overridden(fields, field))
  {
    FieldAtIs(fields, field.key);
  }

  /**
   A further clause has the base's fields, overridden and extended by its own: no field of the base is
   lost or moved, and the last field of its own for a key wins.
   */
  lemma {:induction false} MergeIsOverride(base: Fields, child: Fields, n: nat, key: string)
    requires n <= |child|
    ensures var merged := Merged(base, child, n);
      && Lookup(merged, key) == (if LastWord(child, n, key).Some? then LastWord(child, n, key) else Lookup(base, key))
      && KeyList(base) <= KeyList(merged)
      && (DistinctFields(base) ==> DistinctFields(merged))
  {
    if n > 0 {
      MergeIsOverride(base, child, n - 1, key);
      OverrideOne(Merged(base, child, n - 1), child[n - 1], key);
      OverrideKeeps(Merged(base, child, n - 1), child[n - 1]);
    }
  }

  /** The fields after the first with a key keep their places and patterns, whatever is written over them. */
  lemma {:induction false} LaterFieldsStay(base: Fields, child: Fields, n: nat, j: nat)
    requires n <= |child| && j < |base| && FieldAt(base, base[j].key) < j
    ensures j < |Merged(base, child, n)| && Merged(base, child, n)[j] == base[j]
    ensures FieldAt(Merged(base, child, n), base[j].key) < j
  {
    if n > 0 {
      LaterFieldsStay(base, child, n - 1, j);
      LaterFieldStays(Merged(base, child, n - 1), child[n - 1], j);
    }
  }

  lemma LaterFieldStays(fields: Fields, field: Field, j: nat)
    requires j < |fields| && FieldAt(fields, fields[j].key) < j
    ensures Overridden(fields, field)[j] == fields[j] && FieldAt(Overridden(fields, field), fields[j].key) < j
  {
    var key, next := fields[j].key, Overridden(fields, field);
    FieldAtIs(fields, field.key);
    FieldAtIs(fields, key);
    FieldAtIs(next, key);
    assert next[FieldAt(fields, key)].key == key;
  }

  /** Every field of the merge with a key is the first one, or one the base had after its first. */
  lemma {:induction false} NoNewRepeats(base: Fields, child: Fields, n: nat, i: nat)
    requires n <= |child| && i < |Merged(base, child, n)|
    requires FieldAt(Merged(base, child, n), Merged(base, child, n)[i].key) < i
    ensures i < |base| && base[i] == Merged(base, child, n)[i] && FieldAt(base, base[i].key) < i
  {
    if n > 0 {
      NoNewRepeat(Merged(base, child, n - 1), child[n - 1], i);
      NoNewRepeats(base, child, n - 1, i);
    }
  }

  lemma NoNewRepeat(fields: Fields, field: Field, i: nat)
    requires i < |Overridden(fields, field)|
    requires FieldAt(Overridden(fields, field), Overridden(fields, field)[i].key) < i
    ensures i < |fields| && fields[i] == Overridden(fields, field)[i] && FieldAt(fields, fields[i].key) < i
  {
    var next := Overridden(fields, field);
    var key := next[i].key;
    FieldAtIs(next, key);
    FieldAtIs(fields, field.key);
    FieldAtIs(fields, key);
    assert next[FieldAt(next, key)].key == key;
  }

  /**
   A key that a further clause names is overridden throughout exactly when the base fields after the first
   with that key already have the new pattern: a key the base repeats keeps its later patterns.
   */
  lemma OverrideReplacesAllIff(base: Fields, child: Fields, key: string)
    requires LastWord(child, |child|, key).Some?
    ensures var merged, p := Merged(base, child, |child|), LastWord(child, |child|, key).value;
      (forall i | 0 <= i < |merged| && merged[i].key == key :: merged[i].pattern == p) <==>
      (forall j | FieldAt(base, key) < j < |base| && base[j].key == key :: base[j].pattern == p)
  {
    var merged, p := Merged(base, child, |child|), LastWord(child, |child|, key).value;
    MergeIsOverride(base, child, |child|, key);
    FieldAtIs(merged, key);
    forall j | FieldAt(base, key) < j < |base| && base[j].key == key
      ensures j < |merged| && merged[j] == base[j]
    {
      LaterFieldsStay(base, child, |child|, j);
    }
    forall i | FieldAt(merged, key) < i < |merged| && merged[i].key == key
      ensures i < |base| && base[i] == merged[i] && FieldAt(base, key) < i
    {
      NoNewRepeats(base, child, |child|, i);
    }
  }

  /** Two fields of one key in the base, one in the further clause: the second pattern stays in force. */
  lemma RepeatedKeySurvives(key: string, a: Pattern, b: Pattern, c: Pattern)
    ensures Merged([Field(key, a), Field(key, b)], [Field(key, c)], 1) == [Field(key, c), Field(key, b)]
  {
    assert Merged([Field(key, a), Field(key, b)], [Field(key, c)], 0) == [Field(key, a), Field(key, b)];
  }

  function KeySet(fields: Fields, n: nat): set<string>
    requires n <= |fields|
  {
    if n == 0 then {} else KeySet(fields, n - 1) + {fields[n - 1].key}
  }

  /** The annotations of the merged fields: the child's where it has some, the base's otherwise. */
  function MergedAnnotations(base: map<string, Annotations>, child: map<string, Annotations>, keys: set<string>)
    : map<string, Annotations>
  {
    map key | key in keys && (key in child || key in base) :: if key in child then child[key] else base[key]
  }

  method MergeFieldAnnotations(base: map<string, Annotations>, child: map<string, Annotations>, fields: Fields)
    returns (merged: map<string, Annotations>)
    ensures merged == MergedAnnotations(base, child, KeySet(fields, |fields|))
  {
    merged := map[];
    for n := 0 to |fields|
      invariant merged == MergedAnnotations(base, child, KeySet(fields, n))
    {
      var key := fields[n].key;
      if key in child {
        merged := merged[key := child[key]];
      } else if key in base {
        merged := merged[key := base[key]];
      }
    }
  }

  // The extension line.

  /** A line the extension reader consumes: blank, or an extension declaration. */
  predicate IsHeader(u: Unicode, line: string) {
    var trimmed := Trim(u, line);
    trimmed == [] || trimmed[0] == '!'
  }

  /** How many lines come before the first that is not a header. */
  function HeaderLength(u: Unicode, lines: seq<string>): (n: nat)
    ensures n <= |lines|
  {
    if lines == [] || !IsHeader(u, lines[0]) then 0 else 1 + HeaderLength(u, lines[1..])
  }

  /** The names declared by header lines; an empty name is an error. */
  function DeclaredNames(u: Unicode, lines: seq<string>): seq<string> {
    if lines == [] then []
    else
      var trimmed := Trim(u, lines[0]);
      (if trimmed == [] then [] else [Trim(u, trimmed[1..])]) + DeclaredNames(u, lines[1..])
  }

  /** Going through the declared names: each must be there, and only one is allowed. */
  function ReadNames(found: Option<string>, names: seq<string>): Result<Option<string>, ScriptError>
    decreases |names|
  {
    if names == [] then Ok(found)
    else if names[0] == [] then Err(UnnamedExtension)
    else if found.Some? then Err(SecondExtension)
    else ReadNames(Some(names[0]), names[1..])
  }

  function Extension(u: Unicode, lines: seq<string>): Result<Option<string>, ScriptError> {
    ReadNames(None, DeclaredNames(u, lines[..HeaderLength(u, lines)]))
  }

  lemma HeaderStep(u: Unicode, lines: seq<string>, i: nat, n: nat)
    requires i < |lines| && i <= n <= |lines|
    ensures HeaderLength(u, lines[i..]) == if IsHeader(u, lines[i]) then 1 + HeaderLength(u, lines[i + 1..]) else 0
    ensures i < n ==> var trimmed := Trim(u, lines[i]);
      DeclaredNames(u, lines[i..n]) ==
        (if trimmed == [] then [] else [Trim(u, trimmed[1..])]) + DeclaredNames(u, lines[i + 1..n])
  {
    hide Trim;
    assert lines[i..][1..] == lines[i + 1..];
    assert i < n ==> lines[i..n][1..] == lines[i + 1..n];
  }

  method ExtractExtension(u: Unicode, lines: seq<string>)
    returns (r: Result<(Option<string>, seq<string>), ScriptError>)
    ensures r == match Extension(u, lines)
      case Err(error) => Err(error)
      case Ok(extension) => Ok((extension, lines[HeaderLength(u, lines)..]))
  {
    var extension: Option<string> := None;
    var consumed := 0;
    assert lines[0..] == lines;
    ghost var n := HeaderLength(u, lines);
    while consumed < |lines|
      invariant consumed <= n && consumed + HeaderLength(u, lines[consumed..]) == n
      invariant Extension(u, lines) == ReadNames(extension, DeclaredNames(u, lines[consumed..n]))
    {
      HeaderStep(u, lines, consumed, n);
      var trimmed := Trim(u, lines[consumed]);
      if trimmed == [] {
        consumed := consumed + 1;
        continue;
      }
      if trimmed[0] != '!' {
        break;
      }
      var name := Trim(u, trimmed[1..]);
      if name == [] {
        return Err(UnnamedExtension);
      }
      if extension.Some? {
        return Err(SecondExtension);
      }
      extension := Some(name);
      consumed := consumed + 1;
    }
    return Ok((extension, lines[consumed..]));
  }

  /** The declaration is read exactly when the header declares at most one name, and that is not empty. */
  lemma ExtensionIff(u: Unicode, lines: seq<string>)
    ensures var names := DeclaredNames(u, lines[..HeaderLength(u, lines)]);
      && (Extension(u, lines) == Ok(None) <==> names == [])
      && (forall name :: Extension(u, lines) == Ok(Some(name)) <==> names == [name] && name != [])
  {
    var names := DeclaredNames(u, lines[..HeaderLength(u, lines)]);
    if names != [] {
      var rest := names[1..];
      assert names == [names[0]] + rest;
      assert ReadNames(None, names) ==
        if names[0] == [] then Err(UnnamedExtension) else ReadNames(Some(names[0]), rest);
    }
  }

  ghost predicate BlankLine(u: Unicode, line: string) {
    Trim(u, line) == []
  }

  /** Line `i` is the only one that is not blank, and what follows its first mark is the name. */
  ghost predicate OnlyDeclares(u: Unicode, lines: seq<string>, i: nat, name: string) {
    && i < |lines| && !BlankLine(u, lines[i]) && Trim(u, Trim(u, lines[i])[1..]) == name
    && forall j | 0 <= j < |lines| && j != i :: BlankLine(u, lines[j])
  }

  lemma {:induction false} NoNames(u: Unicode, lines: seq<string>)
    ensures DeclaredNames(u, lines) == [] <==> forall i | 0 <= i < |lines| :: BlankLine(u, lines[i])
  {
    hide Trim;
    if lines != [] {
      NoNames(u, lines[1..]);
      assert forall i | 0 < i < |lines| :: lines[i] == lines[1..][i - 1];
      assert forall i | 0 <= i < |lines[1..]| :: lines[1..][i] == lines[i + 1];
    }
  }

  lemma {:induction false} OneName(u: Unicode, lines: seq<string>, name: string)
    ensures DeclaredNames(u, lines) == [name] <==> exists i: nat :: OnlyDeclares(u, lines, i, name)
  {
    hide Trim, BlankLine;
    if lines != [] {
      var rest := lines[1..];
      OneName(u, rest, name);
      NoNames(u, rest);
      assert forall i | 0 < i < |lines| :: lines[i] == rest[i - 1];
      assert forall i | 0 <= i < |rest| :: rest[i] == lines[i + 1];
      if BlankLine(u, lines[0]) {
        BlankDeclaresNothing(u, lines);
        hide DeclaredNames;
        if i: nat :| OnlyDeclares(u, rest, i, name) { assert OnlyDeclares(u, lines, i + 1, name); }
        if i: nat :| OnlyDeclares(u, lines, i, name) { assert OnlyDeclares(u, rest, i - 1, name); }
      } else {
        FirstDeclares(u, lines, name);
        hide DeclaredNames;
        if DeclaredNames(u, lines) == [name] { assert OnlyDeclares(u, lines, 0, name); }
        if i: nat :| OnlyDeclares(u, lines, i, name) { assert i == 0; }
      }
    }
  }

  lemma BlankDeclaresNothing(u: Unicode, lines: seq<string>)
    requires lines != [] && BlankLine(u, lines[0])
    ensures DeclaredNames(u, lines) == DeclaredNames(u, lines[1..])
  {
    hide Trim;
    assert [] + DeclaredNames(u, lines[1..]) == DeclaredNames(u, lines[1..]);
  }

  lemma FirstDeclares(u: Unicode, lines: seq<string>, name: string)
    requires lines != [] && !BlankLine(u, lines[0])
    ensures DeclaredNames(u, lines) == [name] <==>
      Trim(u, Trim(u, lines[0])[1..]) == name && DeclaredNames(u, lines[1..]) == []
  {
    hide Trim;
    var rest := DeclaredNames(u, lines[1..]);
    assert ([Trim(u, Trim(u, lines[0])[1..])] + rest)[1..] == rest;
  }

  /** The header ends at the first line that neither is blank nor begins with an exclamation mark. */
  ghost predicate HeaderEnds(u: Unicode, lines: seq<string>, n: nat) {
    && n <= |lines|
    && (forall i | 0 <= i < n :: BlankLine(u, lines[i]) || "!" <= Trim(u, lines[i]))
    && (n < |lines| ==> !BlankLine(u, lines[n]) && !("!" <= Trim(u, lines[n])))
  }

  lemma {:induction false} HeaderIff(u: Unicode, lines: seq<string>, n: nat)
    ensures HeaderLength(u, lines) == n <==> HeaderEnds(u, lines, n)
  {
    hide Trim;
    if lines != [] && IsHeader(u, lines[0]) {
      var rest := lines[1..];
      if n > 0 {
        HeaderIff(u, rest, n - 1);
        assert forall i | 0 < i < |lines| :: lines[i] == rest[i - 1];
        assert forall i | 0 <= i < |rest| :: rest[i] == lines[i + 1];
      }
    }
  }

  /** Which extension a header declares, said by its lines. */
  lemma HeaderDeclares(u: Unicode, lines: seq<string>, n: nat, name: string)
    requires HeaderEnds(u, lines, n)
    ensures Extension(u, lines) == Ok(None) <==> forall i | 0 <= i < n :: BlankLine(u, lines[i])
    ensures Extension(u, lines) == Ok(Some(name)) <==>
      name != "" && exists i: nat :: OnlyDeclares(u, lines[..n], i, name)
  {
    hide Extension, DeclaredNames, BlankLine, OnlyDeclares, Trim, HeaderEnds;
    HeaderIff(u, lines, n);
    ExtensionIff(u, lines);
    NoNames(u, lines[..n]);
    OneName(u, lines[..n], name);
  }

  // The clauses.

  /** `lines.join("\n")`. */
  function Joined(lines: seq<string>): string {
    if lines == [] then "" else if |lines| == 1 then lines[0] else lines[0] + "\n" + Joined(lines[1..])
  }

  /** Where line `k` starts if every line is followed by one more character. */
  function Offset(lines: seq<string>, k: nat): nat
    requires k <= |lines|
  {
    if k == 0 then 0 else Offset(lines, k - 1) + |lines[k - 1]| + 1
  }

  /** The text is the lines one after the other, with a newline between neighbours and none at the ends. */
  ghost predicate IsText(text: string, lines: seq<string>) {
    && |text| == (if lines == [] then 0 else Offset(lines, |lines|) - 1)
    && (forall k | 0 <= k < |lines| :: LineAt(text, lines, k))
  }

  ghost predicate LineAt(text: string, lines: seq<string>, k: nat)
    requires k < |lines|
  {
    var start, end := Offset(lines, k), Offset(lines, k) + |lines[k]|;
    && end <= |text| && text[start..end] == lines[k]
    && (k + 1 < |lines| ==> end < |text| && text[end] == '\n')
  }

  lemma {:induction false} OffsetLater(lines: seq<string>, k: nat)
    requires 0 < k <= |lines|
    ensures Offset(lines, k) == |lines[0]| + 1 + Offset(lines[1..], k - 1)
  {
    if k > 1 {
      OffsetLater(lines, k - 1);
    } else {
      assert Offset(lines, 0) == 0;
    }
  }

  lemma {:induction false} JoinedIsText(lines: seq<string>)
    ensures IsText(Joined(lines), lines)
  {
    if |lines| == 1 {
      assert Offset(lines, 0) == 0 && Offset(lines, 1) == |lines[0]| + 1;
    } else if |lines| > 1 {
      var rest := lines[1..];
      var text, later := Joined(lines), Joined(rest);
      JoinedIsText(rest);
      OffsetLater(lines, |lines|);
      assert text == lines[0] + ("\n" + later);
      hide Joined, Offset;
      FirstLineAt(lines, later);
      forall k | 0 <= k < |lines| ensures LineAt(text, lines, k) {
        if k > 0 { LaterLineAt(lines, later, k); }
      }
    }
  }

  lemma FirstLineAt(lines: seq<string>, later: string)
    requires |lines| > 1
    ensures LineAt(lines[0] + ("\n" + later), lines, 0)
  {
    assert Offset(lines, 0) == 0;
  }

  lemma LaterLineAt(lines: seq<string>, later: string, k: nat)
    requires 0 < k < |lines| && LineAt(later, lines[1..], k - 1)
    ensures LineAt(lines[0] + ("\n" + later), lines, k)
  {
    OffsetLater(lines, k);
    hide Offset;
    LineShifts(lines[0], later, Offset(lines[1..], k - 1), |lines[k]|);
  }

  lemma LineShifts(first: string, later: string, start: nat, n: nat)
    requires start + n <= |later|
    ensures var text, at := first + ("\n" + later), |first| + 1 + start;
      text[at..at + n] == later[start..start + n] && (start + n < |later| ==> text[at + n] == later[start + n])
  {
  }

  function BaseClause(base: Block, body: seq<string>): Clause {
    Clause(base.fields, base.guard, Joined(body), base.annotations, base.fieldAnnotations)
  }

  function InheritingClause(base: Block, child: Block, body: seq<string>): Clause {
    var fields := Merged(base.fields, child.fields, |child.fields|);
    Clause(fields, child.guard, Joined(body), child.annotations,
      MergedAnnotations(base.fieldAnnotations, child.fieldAnnotations, KeySet(fields, |fields|)))
  }

  function SectionClause(u: Unicode, base: Block, s: Section): Result<Clause, ScriptError> {
    match ParseBlock(u, s.block, true)
    case Err(error) => Err(error)
    case Ok(child) => Ok(InheritingClause(base, child, s.body))
  }

  /** The first clause is its block and its body. */
  ghost predicate Founds(base: Block, body: seq<string>, clause: Clause) {
    && clause.policy == base.fields && clause.guard == base.guard && clause.annotations == base.annotations
    && clause.fieldAnnotations == base.fieldAnnotations
    && IsText(clause.luaSource, body)
  }

  /** The pattern in force for a key: the further block's last one, or else the base's first one. */
  function InForce(base: Fields, child: Fields, key: string): Option<Pattern> {
    var last := LastWord(child, |child|, key);
    if last.Some? then last else Lookup(base, key)
  }

  /**
   A further clause has its own guard and annotations or none, and its own body; per key it has its own pattern
   and annotations where it names them, the base's otherwise.
   */
  ghost predicate Inherits(base: Block, child: Block, body: seq<string>, clause: Clause) {
    && clause.guard == child.guard && clause.annotations == child.annotations
    && IsText(clause.luaSource, body)
    && KeyList(base.fields) <= KeyList(clause.policy)
    && (forall key :: Lookup(clause.policy, key) == InForce(base.fields, child.fields, key))
    && (forall key :: key in clause.fieldAnnotations <==>
          Lookup(clause.policy, key).Some? && (key in child.fieldAnnotations || key in base.fieldAnnotations))
    && (forall key | key in clause.fieldAnnotations ::
          clause.fieldAnnotations[key] ==
          if key in child.fieldAnnotations then child.fieldAnnotations[key] else base.fieldAnnotations[key])
  }

  lemma {:induction false} KeySetIff(fields: Fields, n: nat, key: string)
    requires n <= |fields|
    ensures key in KeySet(fields, n) <==> exists i | 0 <= i < n :: fields[i].key == key
  {
    if n > 0 {
      KeySetIff(fields, n - 1, key);
    }
  }

  lemma LookupIff(fields: Fields, key: string)
    ensures Lookup(fields, key).Some? <==> key in KeySet(fields, |fields|)
  {
    FieldAtIs(fields, key);
    KeySetIff(fields, |fields|, key);
  }

  lemma BaseClauseFounds(base: Block, body: seq<string>)
    ensures Founds(base, body, BaseClause(base, body))
  {
    JoinedIsText(body);
  }

  lemma InheritingClauseInherits(base: Block, child: Block, body: seq<string>)
    ensures Inherits(base, child, body, InheritingClause(base, child, body))
  {
    hide Joined, IsText, Lookup, KeyList, Merged, LastWord, KeySet;
    var clause := InheritingClause(base, child, body);
    JoinedIsText(body);
    forall key ensures Lookup(clause.policy, key) == InForce(base.fields, child.fields, key)
      && KeyList(base.fields) <= KeyList(clause.policy)
      && (Lookup(clause.policy, key).Some? <==> key in KeySet(clause.policy, |clause.policy|))
    {
      MergeIsOverride(base.fields, child.fields, |child.fields|, key);
      LookupIff(clause.policy, key);
    }
    MergeIsOverride(base.fields, child.fields, |child.fields|, "");
  }

  /** The clauses of the sections from the `n`-th on, up to the first that is not read. */
  function SectionClauses(u: Unicode, base: Block, sections: seq<Section>, n: nat): Result<seq<Clause>, ScriptError>
    requires n <= |sections|
    decreases |sections| - n
  {
    if n == |sections| then Ok([])
    else
      match SectionClause(u, base, sections[n])
      case Err(error) => Err(error)
      case Ok(clause) =>
        match SectionClauses(u, base, sections, n + 1)
        case Err(error) => Err(error)
        case Ok(rest) => Ok([clause] + rest)
  }

  function Prepended(first: seq<Clause>, rest: Result<seq<Clause>, ScriptError>): Result<seq<Clause>, ScriptError> {
    match rest
    case Err(error) => Err(error)
    case Ok(clauses) => Ok(first + clauses)
  }

  function ParseBody(u: Unicode, base: Block, rest: seq<string>): Result<seq<Clause>, ScriptError> {
    var parts := Cut(u, rest);
    Prepended([BaseClause(base, parts.first)], SectionClauses(u, base, parts.sections, 0))
  }

  /** `parse_luaml` on the lines of a text. */
  function ParseScript(u: Unicode, path: string, lines: seq<string>): Result<Script, ScriptError> {
    if lines == [] || lines[0] != FENCE then Err(NoOpeningFence)
    else
      var close := FenceIn(lines[1..]) + 1;
      if close == |lines| then Err(UnclosedFrontmatter)
      else
        var header := lines[1..close];
        match Extension(u, header)
        case Err(error) => Err(error)
        case Ok(extension) =>
          match ParseBlock(u, header[HeaderLength(u, header)..], false)
          case Err(error) => Err(error)
          case Ok(base) =>
            match ParseBody(u, base, lines[close + 1..])
            case Err(error) => Err(error)
            case Ok(clauses) => Ok(Script(path, extension, clauses))
  }

  /** The clause of the block that opens at line `start`; the caller knows where its body ends. */
  method ParseSection(u: Unicode, base: Block, rest: seq<string>, start: nat, end: nat)
    returns (r: Result<Clause, ScriptError>)
    requires start < |rest| && (CloseOf(rest, start) < |rest| ==> CloseOf(rest, start) < end <= |rest|)
    ensures r == if CloseOf(rest, start) == |rest| then Err(UnclosedBlock)
      else SectionClause(u, base, Section(rest[start + 1..CloseOf(rest, start)], rest[CloseOf(rest, start) + 1..end]))
  {
    hide Merged, MergedAnnotations, ParseBlock;
    var close := FindFence(rest, start + 1);
    if close == |rest| {
      return Err(UnclosedBlock);
    }
    var child := ParseFrontmatterBlock(u, rest[start + 1..close], true);
    if child.Err? {
      return Err(child.error);
    }
    var fields := MergeFields(base.fields, child.value.fields);
    var annotations := MergeFieldAnnotations(base.fieldAnnotations, child.value.fieldAnnotations, fields);
    return Ok(Clause(fields, child.value.guard, Joined(rest[close + 1..end]), child.value.annotations, annotations));
  }

  /** The clause of the `k`-th boundary is that of the `k`-th section. */
  method ParseBoundary(u: Unicode, base: Block, rest: seq<string>, boundaries: seq<nat>, k: nat)
    returns (r: Result<Clause, ScriptError>)
    requires boundaries == Boundaries(u, rest, 0) && k < |boundaries|
    ensures |Cut(u, rest).sections| == |boundaries| && r == SectionClause(u, base, Cut(u, rest).sections[k])
  {
    hide SectionClause, ParseBlock;
    CutIsSlices(u, rest, 0, k);
    assert rest[0..] == rest;
    r := ParseSection(u, base, rest, boundaries[k], EndOfBody(rest, boundaries, k + 1));
  }

  method ParseClauses(u: Unicode, base: Block, rest: seq<string>) returns (r: Result<seq<Clause>, ScriptError>)
    ensures r == ParseBody(u, base, rest)
  {
    hide SectionClause, SectionClauses, Cut;
    var boundaries := FindClauseBoundaries(u, rest);
    FirstBodySlice(u, rest);
    ghost var sections := Cut(u, rest).sections;
    var clauses := [BaseClause(base, rest[..EndOfBody(rest, boundaries, 0)])];
    for k := 0 to |boundaries|
      invariant Prepended(clauses, SectionClauses(u, base, sections, k)) == ParseBody(u, base, rest)
    {
      var clause := ParseBoundary(u, base, rest, boundaries, k);
      SectionStep(u, base, sections, k, clauses);
      if clause.Err? {
        return Err(clause.error);
      }
      clauses := clauses + [clause.value];
    }
    NoSectionsLeft(u, base, sections);
    assert clauses + [] == clauses;
    return Ok(clauses);
  }

  lemma NoSectionsLeft(u: Unicode, base: Block, sections: seq<Section>)
    ensures SectionClauses(u, base, sections, |sections|) == Ok([])
  {
  }

  lemma FirstBodySlice(u: Unicode, rest: seq<string>)
    ensures var boundaries := Boundaries(u, rest, 0);
      && |Cut(u, rest).sections| == |boundaries|
      && EndOfBody(rest, boundaries, 0) <= |rest|
      && Cut(u, rest).first == rest[..EndOfBody(rest, boundaries, 0)]
  {
    CutFirstSlice(u, rest, 0);
    assert rest[0..] == rest;
  }

  lemma SectionStep(u: Unicode, base: Block, sections: seq<Section>, k: nat, clauses: seq<Clause>)
    requires k < |sections|
    ensures Prepended(clauses, SectionClauses(u, base, sections, k)) ==
      match SectionClause(u, base, sections[k])
      case Err(error) => Err(error)
      case Ok(clause) => Prepended(clauses + [clause], SectionClauses(u, base, sections, k + 1))
  {
    hide SectionClause;
    if SectionClauses(u, base, sections, k).Ok? {
      var clause, rest := SectionClause(u, base, sections[k]).value, SectionClauses(u, base, sections, k + 1).value;
      assert clauses + ([clause] + rest) == (clauses + [clause]) + rest;
    }
  }

  method ParseLuaml(u: Unicode, path: string, lines: seq<string>) returns (r: Result<Script, ScriptError>)
    ensures r == ParseScript(u, path, lines)
  {
    if lines == [] || lines[0] != FENCE {
      return Err(NoOpeningFence);
    }
    var close := FindFence(lines, 1);
    if close == |lines| {
      return Err(UnclosedFrontmatter);
    }
    var header := ExtractExtension(u, lines[1..close]);
    if header.Err? {
      return Err(header.error);
    }
    var base := ParseFrontmatterBlock(u, header.value.1, false);
    if base.Err? {
      return Err(base.error);
    }
    var clauses := ParseClauses(u, base.value, lines[close + 1..]);
    if clauses.Err? {
      return Err(clauses.error);
    }
    return Ok(Script(path, header.value.0, clauses.value));
  }

  // What a parsed script says.

  lemma {:induction false} SectionCount(u: Unicode, base: Block, sections: seq<Section>, n: nat)
    requires n <= |sections| && SectionClauses(u, base, sections, n).Ok?
    ensures |SectionClauses(u, base, sections, n).value| == |sections| - n
    decreases |sections| - n
  {
    hide SectionClause;
    if n < |sections| {
      SectionCount(u, base, sections, n + 1);
    }
  }

  lemma SectionInherits(u: Unicode, base: Block, s: Section)
    requires SectionClause(u, base, s).Ok?
    ensures var child := ParseBlock(u, s.block, true);
      child.Ok? && Inherits(base, child.value, s.body, SectionClause(u, base, s).value)
  {
    hide ParseBlock, Inherits, InheritingClause;
    InheritingClauseInherits(base, ParseBlock(u, s.block, true).value, s.body);
  }

  lemma {:induction false} SectionClauseAt(u: Unicode, base: Block, sections: seq<Section>, n: nat, k: nat)
    requires n <= k < |sections| && SectionClauses(u, base, sections, n).Ok?
    ensures |SectionClauses(u, base, sections, n).value| == |sections| - n
    ensures SectionClause(u, base, sections[k]) == Ok(SectionClauses(u, base, sections, n).value[k - n])
    decreases |sections| - n
  {
    hide SectionClause;
    SectionCount(u, base, sections, n);
    if k > n {
      SectionClauseAt(u, base, sections, n + 1, k);
    }
  }

  /** The lines of a script, cut up: its first block, its first body, and its further sections. */
  ghost predicate Layout(lines: seq<string>, header: seq<string>, parts: Parts) {
    lines == [FENCE] + (header + ([FENCE] + Assemble(parts)))
  }

  /**
   A script that is read is the first block, the first body and the sections in order, without a line
   lost; its clauses are those of its parts, and each further clause inherits the fields of the first
   but neither its guard nor its annotations.
   */
  lemma ScriptIsItsParts(u: Unicode, path: string, lines: seq<string>)
    returns (header: seq<string>, parts: Parts, base: Block)
    requires ParseScript(u, path, lines).Ok?
    ensures Layout(lines, header, parts) && FenceFree(header) && parts == Cut(u, Assemble(parts))
    ensures ParseBlock(u, header[HeaderLength(u, header)..], false) == Ok(base)
    ensures var script := ParseScript(u, path, lines).value;
      && script.sourcePath == path
      && Extension(u, header) == Ok(script.extension)
      && |script.clauses| == 1 + |parts.sections|
      && script.clauses[0] == BaseClause(base, parts.first)
      && Founds(base, parts.first, script.clauses[0])
      && (forall k | 0 <= k < |parts.sections| ::
        SectionClause(u, base, parts.sections[k]) == Ok(script.clauses[k + 1]))
      && forall k | 0 <= k < |parts.sections| ::
          var child := ParseBlock(u, parts.sections[k].block, true);
          child.Ok? && Inherits(base, child.value, parts.sections[k].body, script.clauses[k + 1])
  {
    hide HeaderLength, Extension, ParseBlock, SectionClause, Cut, Assemble, Founds, Inherits;
    var close := FenceIn(lines[1..]) + 1;
    header := lines[1..close];
    parts := Cut(u, lines[close + 1..]);
    base := ParseBlock(u, header[HeaderLength(u, header)..], false).value;
    FenceInIs(lines[1..]);
    CutConserves(u, lines[close + 1..]);
    FirstBlockLines(lines, close);
    var sections := parts.sections;
    forall k | 0 <= k < |sections|
      ensures |SectionClauses(u, base, sections, 0).value| == |sections|
      ensures SectionClause(u, base, sections[k]) == Ok(SectionClauses(u, base, sections, 0).value[k])
    {
      SectionClauseAt(u, base, sections, 0, k);
    }
    BaseClauseFounds(base, parts.first);
    forall k | 0 <= k < |sections|
      ensures SectionClause(u, base, sections[k]).Ok? ==>
        var child := ParseBlock(u, sections[k].block, true);
        child.Ok? && Inherits(base, child.value, sections[k].body, SectionClause(u, base, sections[k]).value)
    {
      SectionInherits(u, base, sections[k]);
    }
    if sections == [] { assert SectionClauses(u, base, sections, 0) == Ok([]); }
    else { assert SectionClause(u, base, sections[0]).Ok?; }
  }

  lemma FirstBlockLines(lines: seq<string>, close: nat)
    requires 1 <= close < |lines| && lines[0] == FENCE && close == FenceIn(lines[1..]) + 1
    ensures lines == [FENCE] + (lines[1..close] + ([FENCE] + lines[close + 1..]))
    ensures FenceFree(lines[1..close])
  {
    FenceInIs(lines[1..]);
    assert lines[1..][close - 1] == lines[close];
    forall i | 0 <= i < close - 1 ensures lines[1..close][i] != FENCE {
      assert lines[1..][i] == lines[1..close][i];
    }
  }

  lemma ScriptOkIff(u: Unicode, path: string, lines: seq<string>, header: seq<string>, rest: seq<string>, base: Block)
    requires lines == [FENCE] + (header + ([FENCE] + rest)) && FenceFree(header) && Extension(u, header).Ok?
    requires ParseBlock(u, header[HeaderLength(u, header)..], false) == Ok(base)
    ensures var script, later := ParseScript(u, path, lines), SectionClauses(u, base, Cut(u, rest).sections, 0);
      && (script.Ok? <==> later.Ok?)
      && (later.Err? ==> script == Err(later.error))
  {
    hide HeaderLength, Extension, ParseBlock, Cut, SectionClauses;
    FenceAfter(header, rest);
    assert lines[1..] == header + ([FENCE] + rest);
    assert lines[1..|header| + 1] == header && lines[|header| + 2..] == rest;
  }

  /** What a script comes to: its first problem in this order, or a script. */
  lemma ScriptOutcome(u: Unicode, path: string, lines: seq<string>, header: seq<string>, rest: seq<string>)
    requires lines == [FENCE] + (header + ([FENCE] + rest)) && FenceFree(header)
    ensures var extension, base := Extension(u, header), ParseBlock(u, header[HeaderLength(u, header)..], false);
      var script, sections := ParseScript(u, path, lines), Cut(u, rest).sections;
      if extension.Err? then script == Err(extension.error)
      else if base.Err? then script == Err(base.error)
      else
        && (script.Ok? <==> forall k | 0 <= k < |sections| :: ParseBlock(u, sections[k].block, true).Ok?)
        && (forall k | 0 <= k < |sections| && FirstBad(u, sections, k) ::
              script == Err(ParseBlock(u, sections[k].block, true).error))
  {
    hide HeaderLength, Extension, ParseBlock, Cut, SectionClauses;
    FenceAfter(header, rest);
    assert lines[1..] == header + ([FENCE] + rest);
    assert lines[1..|header| + 1] == header && lines[|header| + 2..] == rest;
    var base, sections := ParseBlock(u, header[HeaderLength(u, header)..], false), Cut(u, rest).sections;
    if Extension(u, header).Ok? && base.Ok? {
      SectionsOutcome(u, base.value, sections, 0);
      ScriptOkIff(u, path, lines, header, rest, base.value);
    }
  }

  /** A text that does not open with a fence, or has no second one, is no script. */
  lemma ScriptNeedsFences(u: Unicode, path: string, lines: seq<string>)
    ensures lines == [] || lines[0] != FENCE ==> ParseScript(u, path, lines) == Err(NoOpeningFence)
    ensures lines != [] && lines[0] == FENCE && FenceFree(lines[1..]) ==>
      ParseScript(u, path, lines) == Err(UnclosedFrontmatter)
  {
    if lines != [] {
      FenceInIs(lines[1..]);
    }
  }

  /** The `k`-th section is the first whose block is not read. */
  ghost predicate FirstBad(u: Unicode, sections: seq<Section>, k: nat)
    requires k < |sections|
  {
    ParseBlock(u, sections[k].block, true).Err? && forall j | 0 <= j < k :: ParseBlock(u, sections[j].block, true).Ok?
  }

  lemma {:induction false} SectionsOutcome(u: Unicode, base: Block, sections: seq<Section>, n: nat)
    requires n <= |sections|
    ensures SectionClauses(u, base, sections, n).Ok? <==>
      forall k | n <= k < |sections| :: ParseBlock(u, sections[k].block, true).Ok?
    ensures forall k | n <= k < |sections| && ParseBlock(u, sections[k].block, true).Err?
        && (forall j | n <= j < k :: ParseBlock(u, sections[j].block, true).Ok?) ::
      SectionClauses(u, base, sections, n) == Err(ParseBlock(u, sections[k].block, true).error)
    decreases |sections| - n
  {
    hide ParseBlock, InheritingClause;
    if n < |sections| {
      SectionsOutcome(u, base, sections, n + 1);
    }
  }

  /** The error for a further block that is not closed is never given. */
  lemma NoUnclosedBlock(u: Unicode, path: string, lines: seq<string>)
    ensures ParseScript(u, path, lines) != Err(UnclosedBlock)
  {
    hide Cut, HeaderLength, DeclaredNames, Classify, SectionClauses;
    if lines != [] && lines[0] == FENCE && FenceIn(lines[1..]) + 1 < |lines| {
      var close := FenceIn(lines[1..]) + 1;
      var header := lines[1..close];
      NamesNoUnclosedBlock(None, DeclaredNames(u, header[..HeaderLength(u, header)]));
      var block := header[HeaderLength(u, header)..];
      KindsNoUnclosedBlock(u, block);
      BlockNoUnclosedBlock(Kinds(u, block), false, |block|);
      if ParseBlock(u, block, false).Ok? {
        SectionsNoUnclosedBlock(u, ParseBlock(u, block, false).value, Cut(u, lines[close + 1..]).sections, 0);
      }
    }
  }

  lemma {:induction false} NamesNoUnclosedBlock(found: Option<string>, names: seq<string>)
    ensures ReadNames(found, names) != Err(UnclosedBlock)
    decreases |names|
  {
    if names != [] && names[0] != [] && found.None? {
      NamesNoUnclosedBlock(Some(names[0]), names[1..]);
    }
  }

  lemma KindsNoUnclosedBlock(u: Unicode, lines: seq<string>)
    ensures forall i | 0 <= i < |lines| :: Kinds(u, lines)[i] != Bad(UnclosedBlock)
  {
  }

  lemma {:induction false} BlockNoUnclosedBlock(kinds: seq<LineKind>, isChild: bool, n: nat)
    requires n <= |kinds| && forall i | 0 <= i < n :: kinds[i] != Bad(UnclosedBlock)
    ensures After(kinds, isChild, n) != Err(UnclosedBlock)
  {
    if n > 0 {
      BlockNoUnclosedBlock(kinds, isChild, n - 1);
    }
  }

  lemma {:induction false} SectionsNoUnclosedBlock(u: Unicode, base: Block, sections: seq<Section>, n: nat)
    requires n <= |sections|
    ensures SectionClauses(u, base, sections, n) != Err(UnclosedBlock)
    decreases |sections| - n
  {
    hide Merged, MergedAnnotations, Classify;
    if n < |sections| {
      var block := sections[n].block;
      KindsNoUnclosedBlock(u, block);
      BlockNoUnclosedBlock(Kinds(u, block), true, |block|);
      SectionsNoUnclosedBlock(u, base, sections, n + 1);
    }
  }

  // Guards of a block, end to end.

  /**
   A block's guard is evaluated as the conjunction of its `?` lines, if each of these is a guard of its
   own without an `or` at its top level.
   */
  lemma BlockGuardIsConjunction(u: Unicode, lib: GuardLexer.NumberLib, lines: seq<string>, isChild: bool,
      bindings: FieldBindings)
    requires ParseBlock(u, lines, isChild).Ok?
    requires var texts := GuardsOf(Kinds(u, lines), |lines|);
      texts != [] && Guards.AllValid(lib, texts) && Guards.NoTopLevelOr(lib, texts)
    ensures var b := ParseBlock(u, lines, isChild).value;
      && b.guard.Some?
      && Guards.EvaluateText(lib, b.guard.value, bindings)
         == Guards.Conjunction(lib, GuardsOf(Kinds(u, lines), |lines|), bindings)
  {
    FieldsAndGuardsInOrder(Kinds(u, lines), isChild, |lines|);
    Guards.JoinedLinesAreAnded(lib, GuardsOf(Kinds(u, lines), |lines|), bindings);
  }

  /** Without that condition it is the conjunction exactly when the joined disjuncts agree with it. */
  lemma BlockGuardIsConjunctionIff(u: Unicode, lib: GuardLexer.NumberLib, lines: seq<string>, isChild: bool,
      trees: seq<GuardGrammar.OrTree>, bindings: FieldBindings)
    requires ParseBlock(u, lines, isChild).Ok? && GuardsOf(Kinds(u, lines), |lines|) != []
    requires Guards.Derive(lib, GuardsOf(Kinds(u, lines), |lines|), trees)
    ensures var b := ParseBlock(u, lines, isChild).value;
      && b.guard.Some?
      && (Guards.EvaluateText(lib, b.guard.value, bindings)
            == Guards.Conjunction(lib, GuardsOf(Kinds(u, lines), |lines|), bindings)
          <==> Guards.JoinAgrees(lib, trees, bindings))
  {
    FieldsAndGuardsInOrder(Kinds(u, lines), isChild, |lines|);
    Guards.JoinIsConjunctionUnderIff(lib, GuardsOf(Kinds(u, lines), |lines|), trees, bindings);
  }
}
