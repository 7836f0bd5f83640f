/** The pattern syntax tree and its variables (`crates/luaml/src/pattern.rs`). */
module Patterns {
  import opened Wrappers
  import opened Values

  datatype Pattern =
    | Wildcard
    | EnumPattern(name: string)
    | StringLiteral(text: string)
    | NumberLiteral(n: i64)
    | BoolLiteral(b: bool)
    | Variable(name: string)
    | Pin(name: string)
    | ListOf(list: ListPattern)
    | MapOf(entries: seq<Field>)

  datatype ListPattern =
    | Empty
    | HeadTail(head: Pattern, tail: Pattern)
    | Elements(patterns: seq<Pattern>)

  /** One `key: pattern` entry of a policy or of a map pattern. */
  datatype Field = Field(key: string, pattern: Pattern)

  type Fields = seq<Field>

  // Fields by key.

  /** The first field with a key: its position, or the number of fields. */
  function FieldAt(fields: Fields, key: string): (i: nat)
    ensures i <= |fields|
  {
    if fields == [] || fields[0].key == key then 0 else 1 + FieldAt(fields[1..], key)
  }

  method FindField(fields: Fields, key: string) returns (i: nat)
    ensures i == FieldAt(fields, key)
  {
    i := 0;
    assert fields[0..] == fields;
    while i < |fields| && fields[i].key != key
      invariant i <= |fields| && i + FieldAt(fields[i..], key) == FieldAt(fields, key)
    {
      assert fields[i..][1..] == fields[i + 1..];
      i := i + 1;
    }
  }

  lemma {:induction false} FieldAtIs(fields: Fields, key: string)
    ensures forall k | 0 <= k < FieldAt(fields, key) :: fields[k].key != key
    ensures FieldAt(fields, key) < |fields| ==> fields[FieldAt(fields, key)].key == key
  {
    if fields != [] && fields[0].key != key {
      FieldAtIs(fields[1..], key);
    }
  }

  /** The pattern of the first field with a key. */
  function Lookup(fields: Fields, key: string): Option<Pattern> {
    var i := FieldAt(fields, key);
    if i < |fields| then Some(fields[i].pattern) else None
  }

  lemma {:induction false} FieldAtUnique(fields: Fields, key: string, i: nat)
    requires i <= |fields| && (i < |fields| ==> fields[i].key == key) && forall k | 0 <= k < i :: fields[k].key != key
    ensures FieldAt(fields, key) == i
  {
    if i > 0 {
      FieldAtUnique(fields[1..], key, i - 1);
    }
  }

  // Variables.

  /** The variables of a pattern, in the order they are written. */
  function Variables(p: Pattern): seq<string>
    decreases p, 0
  {
    match p
    case Variable(name) => [name]
    case ListOf(HeadTail(head, tail)) => Variables(head) + Variables(tail)
    case ListOf(Elements(patterns)) => VariablesOfAll(patterns)
    case MapOf(entries) => VariablesOfFields(entries)
    case _ => []
  }

  function VariablesOfAll(patterns: seq<Pattern>): seq<string>
    decreases patterns, 1
  {
    if patterns == [] then [] else Variables(patterns[0]) + VariablesOfAll(patterns[1..])
  }

  function VariablesOfFields(fields: Fields): seq<string>
    decreases fields, 1
  {
    if fields == [] then []
    else
      Variables(fields[0].pattern) + VariablesOfFields(fields[1..])
  }

  predicate HasPin(p: Pattern) {
    match p
    case Pin(_) => true
    case ListOf(HeadTail(head, tail)) => HasPin(head) || HasPin(tail)
    case ListOf(Elements(patterns)) => exists i | 0 <= i < |patterns| :: HasPin(patterns[i])
    case MapOf(entries) => exists i | 0 <= i < |entries| :: HasPin(entries[i].pattern)
    case _ => false
  }

  ghost predicate Distinct(names: seq<string>) {
    forall i, j | 0 <= i < j < |names| :: names[i] != names[j]
  }

  lemma VariablesStep(patterns: seq<Pattern>, i: nat, before: seq<string>)
    requires i < |patterns|
    ensures before + VariablesOfAll(patterns[i..]) ==
      (before + Variables(patterns[i])) + VariablesOfAll(patterns[i + 1..])
  {
    var rest := patterns[i..];
    assert rest[0] == patterns[i] && rest[1..] == patterns[i + 1..];
    ConcatThree(before, Variables(rest[0]), VariablesOfAll(rest[1..]));
  }

  lemma FieldVariablesStep(fields: Fields, i: nat, before: seq<string>)
    requires i < |fields|
    ensures before + VariablesOfFields(fields[i..]) ==
      (before + Variables(fields[i].pattern)) + VariablesOfFields(fields[i + 1..])
  {
    var rest := fields[i..];
    assert rest[0] == fields[i] && rest[1..] == fields[i + 1..];
    ConcatThree(before, Variables(rest[0].pattern), VariablesOfFields(rest[1..]));
  }

  /** `collect_vars_inner`: pushes onto `vars` while it walks the pattern. */
  method CollectVariables(p: Pattern, vars: seq<string>) returns (all: seq<string>)
    ensures all == vars + Variables(p)
    decreases p
  {
    all := vars;
    match p {
      case Variable(name) =>
        all := all + [name];
      case ListOf(HeadTail(head, tail)) =>
        all := CollectVariables(head, all);
        all := CollectVariables(tail, all);
        assert all == vars + (Variables(head) + Variables(tail));
      case ListOf(Elements(patterns)) =>
        assert patterns[0..] == patterns;
        for i := 0 to |patterns|
          invariant all + VariablesOfAll(patterns[i..]) == vars + VariablesOfAll(patterns)
        {
          VariablesStep(patterns, i, all);
          all := CollectVariables(patterns[i], all);
        }
        assert patterns[|patterns|..] == [];
      case MapOf(entries) =>
        assert entries[0..] == entries;
        for i := 0 to |entries|
          invariant all + VariablesOfFields(entries[i..]) == vars + VariablesOfFields(entries)
        {
          FieldVariablesStep(entries, i, all);
          all := CollectVariables(entries[i].pattern, all);
        }
        assert entries[|entries|..] == [];
      case _ =>
    }
  }

  /** Accepts a policy exactly when no variable name occurs twice in it, at any depth. */
  method CheckDuplicateVariables(fields: Fields) returns (ok: bool)
    ensures ok <==> Distinct(VariablesOfFields(fields))
  {
    var all: seq<string> := [];
    assert fields[0..] == fields;
    for i := 0 to |fields|
      invariant all + VariablesOfFields(fields[i..]) == VariablesOfFields(fields)
    {
      FieldVariablesStep(fields, i, all);
      all := CollectVariables(fields[i].pattern, all);
    }
    assert fields[|fields|..] == [] && all == VariablesOfFields(fields);
    ok := AllDifferent(all);
  }

  method AllDifferent(names: seq<string>) returns (ok: bool)
    ensures ok <==> Distinct(names)
  {
    var seen: set<string> := {};
    for i := 0 to |names|
      invariant forall k | 0 <= k < i :: names[k] in seen
      invariant forall x | x in seen :: exists k | 0 <= k < i :: names[k] == x
      invariant forall j, k | 0 <= j < k < i :: names[j] != names[k]
    {
      if names[i] in seen {
        return false;
      }
      seen := seen + {names[i]};
    }
    return true;
  }
}
