/** Frontmatter blocks (`crates/luaml/src/parser.rs`). */
module Frontmatter {
  import opened Wrappers
  import opened Patterns
  import opened PatternParser
  import opened Clauses
  import Guards

  datatype ScriptError =
    | NoOpeningFence | UnclosedFrontmatter | UnclosedBlock
    | UnnamedExtension | SecondExtension | MisplacedExtension
    | AnnotationWithoutValue | EmptyGuard | LineWithoutColon | FieldWithoutValue
    | BadPattern(error: PatternError)
    | PatternPanics

  /** What one line of a block is. */
  datatype LineKind =
    | Blank
    | AnnotationLine(key: string, value: string)
    | GuardLine(text: string)
    | FieldLine(field: Field)
    | Bad(error: ScriptError)

  function Classify(u: Unicode, line: string): LineKind {
    var trimmed := Trim(u, line);
    if trimmed == [] then Blank
    else if trimmed[0] == '!' then Bad(MisplacedExtension)
    else if trimmed[0] == '@' then
      var rest := trimmed[1..];
      var colon := IndexOf(rest, ':');
      if colon == |rest| then Bad(AnnotationWithoutValue)
      else AnnotationLine(Trim(u, rest[..colon]), Trim(u, rest[colon + 1..]))
    else if trimmed[0] == '?' then
      var text := Trim(u, trimmed[1..]);
      if text == [] then Bad(EmptyGuard) else GuardLine(text)
    else
      var colon := IndexOf(trimmed, ':');
      if colon == |trimmed| then Bad(LineWithoutColon)
      else
        var key, value := Trim(u, trimmed[..colon]), Trim(u, trimmed[colon + 1..]);
        if value == [] then Bad(FieldWithoutValue)
        else
          match ParsePattern(u, value)
          case Parsed(pattern) => FieldLine(Field(key, pattern))
          case Failed(error) => Bad(BadPattern(error))
          case Panic => Bad(PatternPanics)
  }

  function Kinds(u: Unicode, lines: seq<string>): (kinds: seq<LineKind>)
    ensures |kinds| == |lines|
  {
    seq(|lines|, i requires 0 <= i < |lines| => Classify(u, lines[i]))
  }

  datatype Block = Block(
    fields: Fields,
    guard: Option<string>,
    annotations: Annotations,
    fieldAnnotations: map<string, Annotations>)

  // What a block says, read off its lines.

  /** The first `n` lines hold a field. */
  ghost predicate FieldBefore(kinds: seq<LineKind>, n: nat)
    requires n <= |kinds|
  {
    exists i | 0 <= i < n :: kinds[i].FieldLine?
  }

  /** The fields among the first `n` lines, in order. */
  function FieldsOf(kinds: seq<LineKind>, n: nat): Fields
    requires n <= |kinds|
  {
    if n == 0 then []
    else FieldsOf(kinds, n - 1) + if kinds[n - 1].FieldLine? then [kinds[n - 1].field] else []
  }

  function GuardsOf(kinds: seq<LineKind>, n: nat): seq<string>
    requires n <= |kinds|
  {
    if n == 0 then []
    else GuardsOf(kinds, n - 1) + if kinds[n - 1].GuardLine? then [kinds[n - 1].text] else []
  }

  /** The annotations right above line `n`: blank lines do not part them from it, guards and fields do. */
  function Above(kinds: seq<LineKind>, n: nat): Annotations
    requires n <= |kinds|
  {
    if n == 0 then []
    else
      match kinds[n - 1]
      case AnnotationLine(key, value) => Above(kinds, n - 1) + [(key, value)]
      case Blank => Above(kinds, n - 1)
      case _ => []
  }

  /** Line `i` is a field whose annotations are kept as field annotations. */
  ghost predicate Annotates(kinds: seq<LineKind>, isChild: bool, i: nat, key: string)
    requires i < |kinds|
  {
    kinds[i].FieldLine? && kinds[i].field.key == key && Above(kinds, i) != [] && (isChild || FieldBefore(kinds, i))
  }

  /** The last annotated field with this key among the first `n` lines. */
  ghost function LastAnnotated(kinds: seq<LineKind>, isChild: bool, n: nat, key: string): (at: Option<nat>)
    requires n <= |kinds|
    ensures at.Some? ==> at.value < n && Annotates(kinds, isChild, at.value, key)
    ensures forall i | (if at.Some? then at.value + 1 else 0) <= i < n :: !Annotates(kinds, isChild, i, key)
  {
    if n == 0 then None
    else if Annotates(kinds, isChild, n - 1, key) then Some(n - 1)
    else LastAnnotated(kinds, isChild, n - 1, key)
  }

  /** The first field of a block. */
  ghost predicate IsFirstField(kinds: seq<LineKind>, i: nat) {
    i < |kinds| && kinds[i].FieldLine? && !FieldBefore(kinds, i)
  }

  // The parser's loop.

  /** The variables of the parser after some lines. */
  datatype State = State(
    fields: Fields,
    guards: seq<string>,
    top: Annotations,
    fieldAnnotations: map<string, Annotations>,
    pending: Annotations,
    firstFieldSeen: bool)

  const START := State([], [], [], map[], [], false)

  function Flush(s: State, isChild: bool, key: string): State {
    if !s.firstFieldSeen && !isChild then s.(top := s.pending, pending := [], firstFieldSeen := true)
    else if s.pending != [] then
      s.(fieldAnnotations := s.fieldAnnotations[key := s.pending], pending := [], firstFieldSeen := true)
    else s.(firstFieldSeen := true)
  }

  function Step(s: State, isChild: bool, kind: LineKind): State
    requires !kind.Bad?
  {
    match kind
    case Blank => s
    case AnnotationLine(key, value) => s.(pending := s.pending + [(key, value)])
    case GuardLine(text) => s.(guards := s.guards + [text], pending := [])
    case FieldLine(field) =>
      var t := Flush(s, isChild, field.key);
      t.(fields := t.fields + [field])
  }

  function After(kinds: seq<LineKind>, isChild: bool, n: nat): Result<State, ScriptError>
    requires n <= |kinds|
  {
    if n == 0 then Ok(START)
    else
      match After(kinds, isChild, n - 1)
      case Err(error) => Err(error)
      case Ok(s) =>
        match kinds[n - 1]
        case Bad(error) => Err(error)
        case kind => Ok(Step(s, isChild, kind))
  }

  function Finish(s: State): Block {
    Block(
      s.fields,
      if s.guards == [] then None else Some(Guards.JoinLines(s.guards)),
      if s.firstFieldSeen then s.top else s.pending,
      s.fieldAnnotations)
  }

  function ParseBlock(u: Unicode, lines: seq<string>, isChild: bool): Result<Block, ScriptError> {
    match After(Kinds(u, lines), isChild, |lines|)
    case Err(error) => Err(error)
    case Ok(s) => Ok(Finish(s))
  }

  method ParseFrontmatterBlock(u: Unicode, lines: seq<string>, isChild: bool) returns (r: Result<Block, ScriptError>)
    ensures r == ParseBlock(u, lines, isChild)
  {
    hide Classify;
    var fields: Fields := [];
    var guards: seq<string> := [];
    var top: Annotations := [];
    var fieldAnnotations: map<string, Annotations> := map[];
    var pending: Annotations := [];
    var firstFieldSeen := false;
    ghost var kinds := Kinds(u, lines);
    for i := 0 to |lines|
      invariant After(kinds, isChild, i) == Ok(State(fields, guards, top, fieldAnnotations, pending, firstFieldSeen))
    {
      AfterError(kinds, isChild, i + 1, |lines|);
      match Classify(u, lines[i]) {
        case Blank =>
        case Bad(error) => return Err(error);
        case AnnotationLine(key, value) =>
          pending := pending + [(key, value)];
        case GuardLine(text) =>
          guards := guards + [text];
          pending := [];
        case FieldLine(field) =>
          if !firstFieldSeen && !isChild {
            top := pending;
            pending := [];
          } else if pending != [] {
            fieldAnnotations := fieldAnnotations[field.key := pending];
            pending := [];
          }
          firstFieldSeen := true;
          fields := fields + [field];
      }
    }
    if !firstFieldSeen {
      top := pending;
    }
    var guard := None;
    if guards != [] {
      guard := Some(Guards.JoinLines(guards));
    }
    return Ok(Block(fields, guard, top, fieldAnnotations));
  }

  lemma {:induction false} AfterError(kinds: seq<LineKind>, isChild: bool, i: nat, n: nat)
    requires i <= n <= |kinds|
    ensures After(kinds, isChild, i).Err? ==> After(kinds, isChild, n) == After(kinds, isChild, i)
  {
    if i < n {
      AfterError(kinds, isChild, i, n - 1);
    }
  }

  /** A block is read when none of its lines is bad; otherwise its error is that of the first bad line. */
  lemma {:induction false} BlockFailsAtFirstBadLine(kinds: seq<LineKind>, isChild: bool, n: nat)
    requires n <= |kinds|
    ensures After(kinds, isChild, n).Ok? <==> forall i | 0 <= i < n :: !kinds[i].Bad?
    ensures forall i | 0 <= i < n && kinds[i].Bad? && (forall j | 0 <= j < i :: !kinds[j].Bad?) ::
      After(kinds, isChild, n) == Err(kinds[i].error)
  {
    if n > 0 {
      BlockFailsAtFirstBadLine(kinds, isChild, n - 1);
    }
  }

  /** The fields and the guards of a block are those of its lines, in order. */
  lemma {:induction false} FieldsAndGuardsInOrder(kinds: seq<LineKind>, isChild: bool, n: nat)
    requires n <= |kinds| && After(kinds, isChild, n).Ok?
    ensures After(kinds, isChild, n).value.fields == FieldsOf(kinds, n)
    ensures After(kinds, isChild, n).value.guards == GuardsOf(kinds, n)
    ensures After(kinds, isChild, n).value.firstFieldSeen <==> FieldBefore(kinds, n)
  {
    if n > 0 {
      FieldsAndGuardsInOrder(kinds, isChild, n - 1);
      assert FieldBefore(kinds, n) <==> FieldBefore(kinds, n - 1) || kinds[n - 1].FieldLine?;
    }
  }

  /** The pending annotations are those right above the next line. */
  lemma {:induction false} PendingIsAbove(kinds: seq<LineKind>, isChild: bool, n: nat)
    requires n <= |kinds| && After(kinds, isChild, n).Ok?
    ensures After(kinds, isChild, n).value.pending == Above(kinds, n)
  {
    if n > 0 {
      PendingIsAbove(kinds, isChild, n - 1);
    }
  }

  /** Of a base block, the annotations above the first field are kept at the top; of a child block none are. */
  lemma {:induction false} TopAnnotations(kinds: seq<LineKind>, isChild: bool, n: nat)
    requires n <= |kinds| && After(kinds, isChild, n).Ok?
    ensures (isChild || !FieldBefore(kinds, n)) ==> After(kinds, isChild, n).value.top == []
    ensures !isChild ==>
      forall i | 0 <= i < n && IsFirstField(kinds, i) :: After(kinds, isChild, n).value.top == Above(kinds, i)
  {
    if n > 0 {
      TopAnnotations(kinds, isChild, n - 1);
      PendingIsAbove(kinds, isChild, n - 1);
      FieldsAndGuardsInOrder(kinds, isChild, n - 1);
    }
  }

  /** A field keeps the annotations right above its last annotated line. */
  lemma {:induction false} FieldAnnotationsExact(kinds: seq<LineKind>, isChild: bool, n: nat, key: string)
    requires n <= |kinds| && After(kinds, isChild, n).Ok?
    ensures var kept, at := After(kinds, isChild, n).value.fieldAnnotations, LastAnnotated(kinds, isChild, n, key);
      if at.Some? then key in kept && kept[key] == Above(kinds, at.value) else key !in kept
  {
    hide Above, FieldsOf, GuardsOf;
    if n > 0 {
      FieldAnnotationsExact(kinds, isChild, n - 1, key);
      PendingIsAbove(kinds, isChild, n - 1);
      FieldsAndGuardsInOrder(kinds, isChild, n - 1);
    }
  }

  /** What a block that is read says, in terms of its lines alone. */
  ghost predicate SaidBy(b: Block, kinds: seq<LineKind>, isChild: bool) {
    && b.fields == FieldsOf(kinds, |kinds|)
    && b.guard == (if GuardsOf(kinds, |kinds|) == [] then None else Some(Guards.JoinLines(GuardsOf(kinds, |kinds|))))
    && (!FieldBefore(kinds, |kinds|) ==> b.annotations == Above(kinds, |kinds|))
    && (forall i | 0 <= i < |kinds| && IsFirstField(kinds, i) ::
          b.annotations == if isChild then [] else Above(kinds, i))
    && (forall key :: key in b.fieldAnnotations <==> LastAnnotated(kinds, isChild, |kinds|, key).Some?)
    && (forall key | key in b.fieldAnnotations ::
        b.fieldAnnotations[key] == Above(kinds, LastAnnotated(kinds, isChild, |kinds|, key).value))
  }

  /** Reading a block succeeds exactly when no line is bad, and then says what its lines say. */
  lemma BlockSaysItsLines(u: Unicode, lines: seq<string>, isChild: bool)
    ensures ParseBlock(u, lines, isChild).Ok? <==> forall i | 0 <= i < |lines| :: !Classify(u, lines[i]).Bad?
    ensures ParseBlock(u, lines, isChild).Ok? ==> SaidBy(ParseBlock(u, lines, isChild).value, Kinds(u, lines), isChild)
  {
    var kinds := Kinds(u, lines);
    BlockFailsAtFirstBadLine(kinds, isChild, |lines|);
    assert forall i | 0 <= i < |lines| :: kinds[i] == Classify(u, lines[i]);
    if ParseBlock(u, lines, isChild).Ok? {
      StateSaysItsLines(kinds, isChild);
    }
  }

  lemma StateSaysItsLines(kinds: seq<LineKind>, isChild: bool)
    requires After(kinds, isChild, |kinds|).Ok?
    ensures SaidBy(Finish(After(kinds, isChild, |kinds|).value), kinds, isChild)
  {
    var n := |kinds|;
    FieldsAndGuardsInOrder(kinds, isChild, n);
    PendingIsAbove(kinds, isChild, n);
    TopAnnotations(kinds, isChild, n);
    var kept := After(kinds, isChild, n).value.fieldAnnotations;
    forall key
      ensures key in kept <==> LastAnnotated(kinds, isChild, n, key).Some?
      ensures key in kept ==> kept[key] == Above(kinds, LastAnnotated(kinds, isChild, n, key).value)
    {
      FieldAnnotationsExact(kinds, isChild, n, key);
    }
  }
}
