/** Pattern matching and its bindings (`crates/luaml/src/pattern_match.rs`). */
module Matching {
  import opened Wrappers
  import opened Values
  import opened KeyOrder
  import opened Patterns

  const GLOBAL_ENUM := "global"

  predicate IsGlobal(p: Pattern) {
    p == EnumPattern(GLOBAL_ENUM)
  }

  type Match = Option<FieldBindings>

  /** `bindings.extend(sub)`, when there is something to add; a mismatch spoils the whole. */
  function Extend(bindings: FieldBindings, sub: Match): Match {
    if sub.Some? then Some(bindings + sub.value) else None
  }

  lemma ExtendNothing(m: Match)
    ensures Extend(map[], m) == m
  {
    if m.Some? { assert map[] + m.value == m.value; }
  }

  lemma ExtendByNothing(bindings: FieldBindings)
    ensures Extend(bindings, Some(map[])) == Some(bindings)
  {
    assert bindings + map[] == bindings;
  }

  // The matcher as functions.

  function MatchValue(p: Pattern, v: FieldValue): Match
    decreases p, 0
  {
    match p
    case Wildcard => Some(map[])
    case EnumPattern(name) => if v.Enum? && (name == GLOBAL_ENUM || name == v.name) then Some(map[]) else None
    case StringLiteral(text) => if v == Str(text) then Some(map[]) else None
    case NumberLiteral(n) => if v == Number(n) then Some(map[]) else None
    case BoolLiteral(b) => if v == Bool(b) then Some(map[]) else None
    case Variable(name) => Some(map[name := v])
    case Pin(_) => None
    case MapOf(entries) => if v.Map? then MatchEntries(entries, v.fields) else None
    case ListOf(list) =>
      if !v.List? then None
      else
        match list
        case Empty => if v.items == [] then Some(map[]) else None
        case HeadTail(head, tail) =>
          if v.items == [] then None
          else
            (match MatchValue(head, v.items[0])
             case None => None
             case Some(b) => Extend(b, MatchValue(tail, List(v.items[1..]))))
        case Elements(patterns) =>
          if |patterns| != |v.items| then None else MatchElements(patterns, v.items)
  }

  function MatchElements(patterns: seq<Pattern>, items: seq<FieldValue>): Match
    requires |patterns| == |items|
    decreases patterns, 1
  {
    if patterns == [] then Some(map[])
    else
      match MatchValue(patterns[0], items[0])
      case None => None
      case Some(b) => Extend(b, MatchElements(patterns[1..], items[1..]))
  }

  function MatchEntries(entries: Fields, m: FieldMap): Match
    decreases entries, 1
  {
    if entries == [] then Some(map[])
    else if entries[0].key !in m then None
    else
      match MatchValue(entries[0].pattern, m[entries[0].key])
      case None => None
      case Some(b) => Extend(b, MatchEntries(entries[1..], m))
  }

  /** A policy against an event: a missing key is excused only under `:global:`. */
  function MatchFields(fields: Fields, event: FieldMap): Match {
    if fields == [] then Some(map[])
    else if fields[0].key !in event then
      if IsGlobal(fields[0].pattern) then MatchFields(fields[1..], event) else None
    else
      match MatchValue(fields[0].pattern, event[fields[0].key])
      case None => None
      case Some(b) => Extend(b, MatchFields(fields[1..], event))
  }

  // The matcher as it is written.

  method MatchFieldValue(p: Pattern, v: FieldValue) returns (m: Match)
    ensures m == MatchValue(p, v)
    decreases p, 1
  {
    match p {
      case Wildcard => m := Some(map[]);
      case EnumPattern(name) =>
        m := if v.Enum? && (name == GLOBAL_ENUM || name == v.name) then Some(map[]) else None;
      case StringLiteral(text) => m := if v.Str? && v.text == text then Some(map[]) else None;
      case NumberLiteral(n) => m := if v.Number? && v.n == n then Some(map[]) else None;
      case BoolLiteral(b) => m := if v.Bool? && v.b == b then Some(map[]) else None;
      case Variable(name) =>
        var bindings: FieldBindings := map[];
        bindings := bindings[name := v];
        m := Some(bindings);
      case Pin(_) => m := None;
      case ListOf(list) => m := MatchList(list, v);
      case MapOf(entries) => m := MatchMap(entries, v);
    }
  }

  method MatchList(list: ListPattern, v: FieldValue) returns (m: Match)
    ensures m == MatchValue(ListOf(list), v)
    decreases list, 0
  {
    if !v.List? {
      return None;
    }
    match list {
      case Empty =>
        m := if v.items == [] then Some(map[]) else None;
      case HeadTail(head, tail) =>
        if v.items == [] {
          return None;
        }
        m := MatchFieldValue(head, v.items[0]);
        if m.Some? {
          var tailMatch := MatchFieldValue(tail, List(v.items[1..]));
          m := Extend(m.value, tailMatch);
        }
      case Elements(patterns) =>
        if |patterns| != |v.items| {
          return None;
        }
        var bindings: FieldBindings := map[];
        assert patterns[0..] == patterns && v.items[0..] == v.items;
        ExtendNothing(MatchElements(patterns, v.items));
        for i := 0 to |patterns|
          invariant Extend(bindings, MatchElements(patterns[i..], v.items[i..])) == MatchElements(patterns, v.items)
        {
          ghost var rest, items := patterns[i..], v.items[i..];
          assert rest[0] == patterns[i] && rest[1..] == patterns[i + 1..];
          assert items[0] == v.items[i] && items[1..] == v.items[i + 1..];
          var sub := MatchFieldValue(patterns[i], v.items[i]);
          if sub.None? {
            return None;
          }
          ExtendTwice(bindings, sub.value, MatchElements(rest[1..], items[1..]));
          bindings := bindings + sub.value;
        }
        ExtendByNothing(bindings);
        m := Some(bindings);
    }
  }

  method MatchMap(entries: Fields, v: FieldValue) returns (m: Match)
    ensures m == MatchValue(MapOf(entries), v)
    decreases entries, 0
  {
    if !v.Map? {
      return None;
    }
    var bindings: FieldBindings := map[];
    assert entries[0..] == entries;
    ExtendNothing(MatchEntries(entries, v.fields));
    for i := 0 to |entries|
      invariant Extend(bindings, MatchEntries(entries[i..], v.fields)) == MatchEntries(entries, v.fields)
    {
      ghost var rest := entries[i..];
      assert rest[0] == entries[i] && rest[1..] == entries[i + 1..];
      if entries[i].key !in v.fields {
        return None;
      }
      var sub := MatchFieldValue(entries[i].pattern, v.fields[entries[i].key]);
      if sub.None? {
        return None;
      }
      ExtendTwice(bindings, sub.value, MatchEntries(rest[1..], v.fields));
      bindings := bindings + sub.value;
    }
    ExtendByNothing(bindings);
    return Some(bindings);
  }

  method MatchPolicy(fields: Fields, event: FieldMap) returns (m: Match)
    ensures m == MatchFields(fields, event)
  {
    var bindings: FieldBindings := map[];
    assert fields[0..] == fields;
    ExtendNothing(MatchFields(fields, event));
    for i := 0 to |fields|
      invariant Extend(bindings, MatchFields(fields[i..], event)) == MatchFields(fields, event)
    {
      ghost var rest := fields[i..];
      assert rest[0] == fields[i] && rest[1..] == fields[i + 1..];
      var Field(key, pattern) := fields[i];
      if key !in event {
        if !IsGlobal(pattern) {
          return None;
        }
      } else {
        var sub := MatchFieldValue(pattern, event[key]);
        if sub.None? {
          return None;
        }
        ExtendTwice(bindings, sub.value, MatchFields(rest[1..], event));
        bindings := bindings + sub.value;
      }
    }
    ExtendByNothing(bindings);
    return Some(bindings);
  }

  lemma ExtendTwice(a: FieldBindings, b: FieldBindings, c: Match)
    ensures Extend(a, Extend(b, c)) == Extend(a + b, c)
  {
    if c.Some? { assert a + (b + c.value) == (a + b) + c.value; }
  }

  // What a match is, without computing bindings: `v` is an instance of `p` in which each variable
  // stands for its value under `b`.

  ghost predicate Fits(p: Pattern, v: FieldValue, b: FieldBindings) {
    match p
    case Wildcard => true
    case EnumPattern(name) => v.Enum? && (IsGlobal(p) || v == Enum(name))
    case StringLiteral(text) => v == Str(text)
    case NumberLiteral(n) => v == Number(n)
    case BoolLiteral(x) => v == Bool(x)
    case Variable(name) => name in b && b[name] == v
    case Pin(_) => false
    case ListOf(Empty) => v == List([])
    case ListOf(HeadTail(head, tail)) =>
      v.List? && v.items != [] && Fits(head, v.items[0], b) && Fits(tail, List(v.items[1..]), b)
    case ListOf(Elements(patterns)) =>
      v.List? && |v.items| == |patterns| && forall i | 0 <= i < |patterns| :: Fits(patterns[i], v.items[i], b)
    case MapOf(entries) =>
      v.Map? && forall i | 0 <= i < |entries| ::
        entries[i].key in v.fields && Fits(entries[i].pattern, v.fields[entries[i].key], b)
  }

  /** An event is an instance of a policy. */
  ghost predicate FitsEvent(fields: Fields, event: FieldMap, b: FieldBindings) {
    forall i | 0 <= i < |fields| ::
      if fields[i].key in event then Fits(fields[i].pattern, event[fields[i].key], b) else IsGlobal(fields[i].pattern)
  }

  function NameSet(names: seq<string>): set<string> {
    set i | 0 <= i < |names| :: names[i]
  }

  lemma NameSetConcat(a: seq<string>, b: seq<string>)
    ensures NameSet(a + b) == NameSet(a) + NameSet(b)
  {
    forall x | x in NameSet(a) + NameSet(b) ensures x in NameSet(a + b) {
      if x in NameSet(a) {
        var i :| 0 <= i < |a| && a[i] == x;
        assert (a + b)[i] == x;
      } else {
        var i :| 0 <= i < |b| && b[i] == x;
        assert (a + b)[|a| + i] == x;
      }
    }
  }

  lemma DistinctParts(a: seq<string>, b: seq<string>)
    requires Distinct(a + b)
    ensures Distinct(a) && Distinct(b) && NameSet(a) !! NameSet(b)
  {
    forall i, j | 0 <= i < j < |a| ensures a[i] != a[j] { assert (a + b)[i] == a[i] && (a + b)[j] == a[j]; }
    forall i, j | 0 <= i < j < |b| ensures b[i] != b[j] {
      assert (a + b)[|a| + i] == b[i] && (a + b)[|a| + j] == b[j];
    }
    forall i, j | 0 <= i < |a| && 0 <= j < |b| ensures a[i] != b[j] {
      assert (a + b)[i] == a[i] && (a + b)[|a| + j] == b[j];
    }
  }

  /** `b` and `c` agree on `names`. */
  ghost predicate AgreeOn(names: set<string>, b: FieldBindings, c: FieldBindings) {
    forall x | x in names :: x in b && x in c && b[x] == c[x]
  }

  // A match binds exactly the variables of the pattern.

  lemma {:induction false} BoundNames(p: Pattern, v: FieldValue)
    requires MatchValue(p, v).Some?
    ensures MatchValue(p, v).value.Keys == NameSet(Variables(p))
    decreases p, 0
  {
    match p {
      case ListOf(HeadTail(head, tail)) =>
        BoundNames(head, v.items[0]);
        BoundNames(tail, List(v.items[1..]));
        NameSetConcat(Variables(head), Variables(tail));
      case ListOf(Elements(patterns)) => BoundInElements(patterns, v.items);
      case MapOf(entries) => BoundInEntries(entries, v.fields);
      case Variable(name) => assert Variables(p)[0] == name;
      case _ =>
    }
  }

  lemma {:induction false} BoundInElements(patterns: seq<Pattern>, items: seq<FieldValue>)
    requires |patterns| == |items| && MatchElements(patterns, items).Some?
    ensures MatchElements(patterns, items).value.Keys == NameSet(VariablesOfAll(patterns))
    decreases patterns, 1
  {
    if patterns != [] {
      BoundNames(patterns[0], items[0]);
      BoundInElements(patterns[1..], items[1..]);
      NameSetConcat(Variables(patterns[0]), VariablesOfAll(patterns[1..]));
    }
  }

  lemma {:induction false} BoundInEntries(entries: Fields, m: FieldMap)
    requires MatchEntries(entries, m).Some?
    ensures MatchEntries(entries, m).value.Keys == NameSet(VariablesOfFields(entries))
    decreases entries, 1
  {
    if entries != [] {
      BoundNames(entries[0].pattern, m[entries[0].key]);
      BoundInEntries(entries[1..], m);
      NameSetConcat(Variables(entries[0].pattern), VariablesOfFields(entries[1..]));
    }
  }

  /** The bound names of a matched policy are its variables; an excused `:global:` field has none. */
  lemma {:induction false} BoundInPolicy(fields: Fields, event: FieldMap)
    requires MatchFields(fields, event).Some?
    ensures MatchFields(fields, event).value.Keys == NameSet(VariablesOfFields(fields))
  {
    if fields != [] {
      if fields[0].key in event { BoundNames(fields[0].pattern, event[fields[0].key]); }
      BoundInPolicy(fields[1..], event);
      NameSetConcat(Variables(fields[0].pattern), VariablesOfFields(fields[1..]));
    }
  }

  // For patterns without repeated variables, matching is the search for the one environment that fits.

  lemma {:induction false} FitsFrame(p: Pattern, v: FieldValue, b: FieldBindings, c: FieldBindings)
    requires Fits(p, v, b) && AgreeOn(NameSet(Variables(p)), b, c)
    ensures Fits(p, v, c)
    decreases p
  {
    match p {
      case Variable(name) =>
        assert Variables(p)[0] == name;
        assert name in NameSet(Variables(p));
      case ListOf(HeadTail(head, tail)) =>
        NameSetConcat(Variables(head), Variables(tail));
        FitsFrame(head, v.items[0], b, c);
        FitsFrame(tail, List(v.items[1..]), b, c);
      case ListOf(Elements(patterns)) =>
        forall i | 0 <= i < |patterns| ensures Fits(patterns[i], v.items[i], c) {
          ElementNames(patterns, i);
          FitsFrame(patterns[i], v.items[i], b, c);
        }
      case MapOf(entries) =>
        forall i | 0 <= i < |entries| ensures Fits(entries[i].pattern, v.fields[entries[i].key], c) {
          FieldNames(entries, i);
          FitsFrame(entries[i].pattern, v.fields[entries[i].key], b, c);
        }
      case _ =>
    }
  }

  lemma {:induction false} ElementNames(patterns: seq<Pattern>, i: nat)
    requires i < |patterns|
    ensures NameSet(Variables(patterns[i])) <= NameSet(VariablesOfAll(patterns))
  {
    NameSetConcat(Variables(patterns[0]), VariablesOfAll(patterns[1..]));
    if i > 0 { ElementNames(patterns[1..], i - 1); }
  }

  lemma {:induction false} FieldNames(fields: Fields, i: nat)
    requires i < |fields|
    ensures NameSet(Variables(fields[i].pattern)) <= NameSet(VariablesOfFields(fields))
  {
    NameSetConcat(Variables(fields[0].pattern), VariablesOfFields(fields[1..]));
    if i > 0 { FieldNames(fields[1..], i - 1); }
  }

  /** Every value that fits in some environment is matched. */
  lemma {:induction false} FitsMatches(p: Pattern, v: FieldValue, b: FieldBindings)
    requires Fits(p, v, b)
    ensures MatchValue(p, v).Some? && AgreeOn(MatchValue(p, v).value.Keys, MatchValue(p, v).value, b)
    decreases p, 0
  {
    match p {
      case ListOf(HeadTail(head, tail)) =>
        FitsMatches(head, v.items[0], b);
        FitsMatches(tail, List(v.items[1..]), b);
      case ListOf(Elements(patterns)) => FitsMatchesElements(patterns, v.items, b);
      case MapOf(entries) => FitsMatchesEntries(entries, v.fields, b);
      case _ =>
    }
  }

  lemma {:induction false} FitsMatchesElements(patterns: seq<Pattern>, items: seq<FieldValue>, b: FieldBindings)
    requires |patterns| == |items| && forall i | 0 <= i < |patterns| :: Fits(patterns[i], items[i], b)
    ensures var m := MatchElements(patterns, items); m.Some? && AgreeOn(m.value.Keys, m.value, b)
    decreases patterns, 1
  {
    if patterns != [] {
      FitsMatches(patterns[0], items[0], b);
      FitsMatchesElements(patterns[1..], items[1..], b);
    }
  }

  lemma {:induction false} FitsMatchesEntries(entries: Fields, fields: FieldMap, b: FieldBindings)
    requires forall i | 0 <= i < |entries| ::
      entries[i].key in fields && Fits(entries[i].pattern, fields[entries[i].key], b)
    ensures var m := MatchEntries(entries, fields); m.Some? && AgreeOn(m.value.Keys, m.value, b)
    decreases entries, 1
  {
    if entries != [] {
      FitsMatches(entries[0].pattern, fields[entries[0].key], b);
      FitsMatchesEntries(entries[1..], fields, b);
    }
  }

  /** The bindings of a match fit, provided no variable occurs twice. */
  lemma {:induction false} MatchFits(p: Pattern, v: FieldValue)
    requires MatchValue(p, v).Some? && Distinct(Variables(p))
    ensures Fits(p, v, MatchValue(p, v).value)
    decreases p, 0
  {
    match p {
      case ListOf(HeadTail(head, tail)) =>
        var h, t := MatchValue(head, v.items[0]).value, MatchValue(tail, List(v.items[1..])).value;
        DistinctParts(Variables(head), Variables(tail));
        MatchFits(head, v.items[0]);
        MatchFits(tail, List(v.items[1..]));
        BoundNames(head, v.items[0]);
        BoundNames(tail, List(v.items[1..]));
        FitsFrame(head, v.items[0], h, h + t);
        FitsFrame(tail, List(v.items[1..]), t, h + t);
      case ListOf(Elements(patterns)) => MatchFitsElements(patterns, v.items);
      case MapOf(entries) => MatchFitsEntries(entries, v.fields);
      case _ =>
    }
  }

  lemma {:induction false} MatchFitsElements(patterns: seq<Pattern>, items: seq<FieldValue>)
    requires |patterns| == |items| && MatchElements(patterns, items).Some? && Distinct(VariablesOfAll(patterns))
    ensures forall i | 0 <= i < |patterns| :: Fits(patterns[i], items[i], MatchElements(patterns, items).value)
    decreases patterns, 1
  {
    hide Fits, MatchValue;
    if patterns != [] {
      var h, t := MatchValue(patterns[0], items[0]).value, MatchElements(patterns[1..], items[1..]).value;
      DistinctParts(Variables(patterns[0]), VariablesOfAll(patterns[1..]));
      MatchFits(patterns[0], items[0]);
      MatchFitsElements(patterns[1..], items[1..]);
      BoundNames(patterns[0], items[0]);
      BoundInElements(patterns[1..], items[1..]);
      FitsFrame(patterns[0], items[0], h, h + t);
      forall i | 1 <= i < |patterns| ensures Fits(patterns[i], items[i], h + t) {
        assert patterns[1..][i - 1] == patterns[i] && items[1..][i - 1] == items[i];
        ElementNames(patterns[1..], i - 1);
        FitsFrame(patterns[i], items[i], t, h + t);
      }
    }
  }

  lemma {:induction false} MatchFitsEntries(entries: Fields, m: FieldMap)
    requires MatchEntries(entries, m).Some? && Distinct(VariablesOfFields(entries))
    ensures forall i | 0 <= i < |entries| ::
      entries[i].key in m && Fits(entries[i].pattern, m[entries[i].key], MatchEntries(entries, m).value)
    decreases entries, 1
  {
    if entries != [] {
      var h, t := MatchValue(entries[0].pattern, m[entries[0].key]).value, MatchEntries(entries[1..], m).value;
      DistinctParts(Variables(entries[0].pattern), VariablesOfFields(entries[1..]));
      MatchFits(entries[0].pattern, m[entries[0].key]);
      MatchFitsEntries(entries[1..], m);
      BoundNames(entries[0].pattern, m[entries[0].key]);
      BoundInEntries(entries[1..], m);
      FitsFrame(entries[0].pattern, m[entries[0].key], h, h + t);
      forall i | 1 <= i < |entries| ensures entries[i].key in m && Fits(entries[i].pattern, m[entries[i].key], h + t) {
        assert entries[1..][i - 1] == entries[i];
        FieldNames(entries[1..], i - 1);
        FitsFrame(entries[i].pattern, m[entries[i].key], t, h + t);
      }
    }
  }

  /** Matching a value finds the only environment over the pattern's variables in which it fits. */
  lemma MatchExact(p: Pattern, v: FieldValue, b: FieldBindings)
    requires Distinct(Variables(p))
    ensures MatchValue(p, v) == Some(b) <==> Fits(p, v, b) && b.Keys == NameSet(Variables(p))
  {
    if MatchValue(p, v) == Some(b) {
      MatchFits(p, v);
      BoundNames(p, v);
    }
    if Fits(p, v, b) && b.Keys == NameSet(Variables(p)) {
      FitsMatches(p, v, b);
      BoundNames(p, v);
      assert MatchValue(p, v).value == b;
    }
  }

  lemma {:induction false} FitsMatchesEvent(fields: Fields, event: FieldMap, b: FieldBindings)
    requires FitsEvent(fields, event, b)
    ensures var m := MatchFields(fields, event); m.Some? && AgreeOn(m.value.Keys, m.value, b)
  {
    if fields != [] {
      if fields[0].key in event { FitsMatches(fields[0].pattern, event[fields[0].key], b); }
      forall i | 0 <= i < |fields[1..]|
        ensures if fields[1..][i].key in event then Fits(fields[1..][i].pattern, event[fields[1..][i].key], b)
                else IsGlobal(fields[1..][i].pattern)
      {
        assert fields[1..][i] == fields[i + 1];
      }
      FitsMatchesEvent(fields[1..], event, b);
    }
  }

  lemma {:induction false} MatchFitsEvent(fields: Fields, event: FieldMap)
    requires MatchFields(fields, event).Some? && Distinct(VariablesOfFields(fields))
    ensures FitsEvent(fields, event, MatchFields(fields, event).value)
  {
    if fields != [] {
      var rest := fields[1..];
      var t := MatchFields(rest, event).value;
      var b := MatchFields(fields, event).value;
      DistinctParts(Variables(fields[0].pattern), VariablesOfFields(rest));
      MatchFitsEvent(rest, event);
      BoundInPolicy(rest, event);
      if fields[0].key in event {
        var v := event[fields[0].key];
        MatchFits(fields[0].pattern, v);
        BoundNames(fields[0].pattern, v);
        FitsFrame(fields[0].pattern, v, MatchValue(fields[0].pattern, v).value, b);
      }
      forall i | 1 <= i < |fields|
        ensures if fields[i].key in event then Fits(fields[i].pattern, event[fields[i].key], b)
          else IsGlobal(fields[i].pattern)
      {
        assert rest[i - 1] == fields[i];
        if fields[i].key in event {
          FieldNames(rest, i - 1);
          FitsFrame(fields[i].pattern, event[fields[i].key], t, b);
        }
      }
    }
  }

  /** The same for a policy that passes `check_duplicate_variables`. */
  lemma MatchFieldsExact(fields: Fields, event: FieldMap, b: FieldBindings)
    requires Distinct(VariablesOfFields(fields))
    ensures MatchFields(fields, event) == Some(b)
      <==> FitsEvent(fields, event, b) && b.Keys == NameSet(VariablesOfFields(fields))
  {
    if MatchFields(fields, event) == Some(b) {
      MatchFitsEvent(fields, event);
      BoundInPolicy(fields, event);
    }
    if FitsEvent(fields, event, b) && b.Keys == NameSet(VariablesOfFields(fields)) {
      FitsMatchesEvent(fields, event, b);
      BoundInPolicy(fields, event);
      assert MatchFields(fields, event).value == b;
    }
  }

  // Repeated variables: what each occurrence stands for, from left to right.

  function Captures(p: Pattern, v: FieldValue): Pairs<FieldValue>
    requires MatchValue(p, v).Some?
    decreases p, 0
  {
    match p
    case Variable(name) => [(name, v)]
    case ListOf(HeadTail(head, tail)) => Captures(head, v.items[0]) + Captures(tail, List(v.items[1..]))
    case ListOf(Elements(patterns)) => CapturesOfAll(patterns, v.items)
    case MapOf(entries) => CapturesOfFields(entries, v.fields)
    case _ => []
  }

  function CapturesOfAll(patterns: seq<Pattern>, items: seq<FieldValue>): Pairs<FieldValue>
    requires |patterns| == |items| && MatchElements(patterns, items).Some?
    decreases patterns, 1
  {
    if patterns == [] then []
    else Captures(patterns[0], items[0]) + CapturesOfAll(patterns[1..], items[1..])
  }

  function CapturesOfFields(entries: Fields, m: FieldMap): Pairs<FieldValue>
    requires MatchEntries(entries, m).Some?
    decreases entries, 1
  {
    if entries == [] then []
    else
      Captures(entries[0].pattern, m[entries[0].key]) + CapturesOfFields(entries[1..], m)
  }

  /** Records the pairs one after the other; a later one replaces an earlier one of the same name. */
  function Record(captures: Pairs<FieldValue>): FieldBindings {
    if captures == [] then map[] else map[captures[0].0 := captures[0].1] + Record(captures[1..])
  }

  lemma {:induction false} RecordConcat(a: Pairs<FieldValue>, b: Pairs<FieldValue>)
    ensures Record(a + b) == Record(a) + Record(b)
  {
    if a == [] {
      assert a + b == b;
      assert map[] + Record(b) == Record(b);
    } else {
      RecordConcat(a[1..], b);
      assert (a + b)[1..] == a[1..] + b;
      ExtendTwice(map[a[0].0 := a[0].1], Record(a[1..]), Some(Record(b)));
    }
  }

  /** Capture `i` is the last one of the name. */
  ghost predicate LastOf(captures: Pairs<FieldValue>, x: string, i: nat) {
    i < |captures| && captures[i].0 == x && forall j | i < j < |captures| :: captures[j].0 != x
  }

  /** What is recorded for a name is its last capture. */
  lemma {:induction false} RecordIs(captures: Pairs<FieldValue>, x: string)
    ensures x in Record(captures) <==> exists i: nat :: LastOf(captures, x, i)
    ensures forall i: nat | LastOf(captures, x, i) :: x in Record(captures) && Record(captures)[x] == captures[i].1
  {
    if captures != [] {
      var rest := captures[1..];
      RecordIs(rest, x);
      assert forall i | 0 < i < |captures| :: captures[i] == rest[i - 1];
      if i: nat :| LastOf(captures, x, i) { assert i > 0 ==> LastOf(rest, x, i - 1); }
      if i: nat :| LastOf(rest, x, i) { assert LastOf(captures, x, i + 1); }
      if x !in Record(rest) && x == captures[0].0 {
        if j: nat :| 0 < j < |captures| && captures[j].0 == x { LastExists(rest, x, j - 1); }
        assert LastOf(captures, x, 0);
      }
      forall i: nat | LastOf(captures, x, i) ensures x in Record(captures) && Record(captures)[x] == captures[i].1 {
        if i > 0 {
          assert LastOf(rest, x, i - 1);
        } else {
          assert forall j | 0 <= j < |rest| :: rest[j].0 != x by {
            assert forall j | 0 <= j < |rest| :: rest[j] == captures[j + 1];
          }
          assert x !in Record(rest);
        }
      }
    }
  }

  lemma {:induction false} LastExists(captures: Pairs<FieldValue>, x: string, i: nat)
    requires i < |captures| && captures[i].0 == x
    ensures exists k: nat :: LastOf(captures, x, k)
    decreases |captures| - i
  {
    if k: nat :| i < k < |captures| && captures[k].0 == x {
      LastExists(captures, x, k);
    } else {
      assert LastOf(captures, x, i);
    }
  }

  /** The value is of the pattern's shape; what the variables stand for does not matter. */
  ghost predicate Admits(p: Pattern, v: FieldValue) {
    match p
    case Wildcard => true
    case Variable(_) => true
    case EnumPattern(name) => v.Enum? && (IsGlobal(p) || v == Enum(name))
    case StringLiteral(text) => v == Str(text)
    case NumberLiteral(n) => v == Number(n)
    case BoolLiteral(x) => v == Bool(x)
    case Pin(_) => false
    case ListOf(Empty) => v == List([])
    case ListOf(HeadTail(head, tail)) =>
      v.List? && v.items != [] && Admits(head, v.items[0]) && Admits(tail, List(v.items[1..]))
    case ListOf(Elements(patterns)) =>
      v.List? && |v.items| == |patterns| && forall i | 0 <= i < |patterns| :: Admits(patterns[i], v.items[i])
    case MapOf(entries) =>
      v.Map? && forall i | 0 <= i < |entries| ::
        entries[i].key in v.fields && Admits(entries[i].pattern, v.fields[entries[i].key])
  }

  /** A pattern matches exactly the values of its shape, repeated variables or not. */
  lemma {:induction false} AdmitsIff(p: Pattern, v: FieldValue)
    ensures MatchValue(p, v).Some? <==> Admits(p, v)
  {
    match p {
      case ListOf(HeadTail(head, tail)) =>
        if v.List? && v.items != [] {
          AdmitsIff(head, v.items[0]);
          AdmitsIff(tail, List(v.items[1..]));
        }
      case ListOf(Elements(patterns)) =>
        if v.List? && |v.items| == |patterns| {
          ElementsMatchIff(patterns, v.items);
          forall i | 0 <= i < |patterns|
            ensures MatchValue(patterns[i], v.items[i]).Some? <==> Admits(patterns[i], v.items[i])
          {
            AdmitsIff(patterns[i], v.items[i]);
          }
        }
      case MapOf(entries) =>
        if v.Map? {
          EntriesMatchIff(entries, v.fields);
          forall i | 0 <= i < |entries| && entries[i].key in v.fields
            ensures MatchValue(entries[i].pattern, v.fields[entries[i].key]).Some? <==>
              Admits(entries[i].pattern, v.fields[entries[i].key])
          {
            AdmitsIff(entries[i].pattern, v.fields[entries[i].key]);
          }
        }
      case _ =>
    }
  }

  /** When a variable is repeated, its last occurrence wins. */
  lemma {:induction false} LastCaptureWins(p: Pattern, v: FieldValue)
    requires MatchValue(p, v).Some?
    ensures MatchValue(p, v).value == Record(Captures(p, v))
    decreases p, 0
  {
    match p {
      case Variable(name) =>
        assert Captures(p, v)[1..] == [];
      case ListOf(HeadTail(head, tail)) =>
        LastCaptureWins(head, v.items[0]);
        LastCaptureWins(tail, List(v.items[1..]));
        RecordConcat(Captures(head, v.items[0]), Captures(tail, List(v.items[1..])));
      case ListOf(Elements(patterns)) => LastWinsInElements(patterns, v.items);
      case MapOf(entries) => LastWinsInEntries(entries, v.fields);
      case _ =>
    }
  }

  lemma {:induction false} LastWinsInElements(patterns: seq<Pattern>, items: seq<FieldValue>)
    requires |patterns| == |items| && MatchElements(patterns, items).Some?
    ensures MatchElements(patterns, items).value == Record(CapturesOfAll(patterns, items))
    decreases patterns, 1
  {
    if patterns != [] {
      LastCaptureWins(patterns[0], items[0]);
      LastWinsInElements(patterns[1..], items[1..]);
      RecordConcat(Captures(patterns[0], items[0]), CapturesOfAll(patterns[1..], items[1..]));
    }
  }

  lemma {:induction false} LastWinsInEntries(entries: Fields, m: FieldMap)
    requires MatchEntries(entries, m).Some?
    ensures MatchEntries(entries, m).value == Record(CapturesOfFields(entries, m))
    decreases entries, 1
  {
    if entries != [] {
      LastCaptureWins(entries[0].pattern, m[entries[0].key]);
      LastWinsInEntries(entries[1..], m);
      RecordConcat(Captures(entries[0].pattern, m[entries[0].key]), CapturesOfFields(entries[1..], m));
    }
  }

  function CapturesOfPolicy(fields: Fields, event: FieldMap): Pairs<FieldValue>
    requires MatchFields(fields, event).Some?
  {
    if fields == [] then []
    else if fields[0].key in event then
      Captures(fields[0].pattern, event[fields[0].key]) + CapturesOfPolicy(fields[1..], event)
    else CapturesOfPolicy(fields[1..], event)
  }

  /** Across the fields of a policy, too, the last occurrence wins. */
  lemma {:induction false} LastCaptureWinsInPolicy(fields: Fields, event: FieldMap)
    requires MatchFields(fields, event).Some?
    ensures MatchFields(fields, event).value == Record(CapturesOfPolicy(fields, event))
  {
    if fields != [] {
      LastCaptureWinsInPolicy(fields[1..], event);
      if fields[0].key in event {
        LastCaptureWins(fields[0].pattern, event[fields[0].key]);
        RecordConcat(Captures(fields[0].pattern, event[fields[0].key]), CapturesOfPolicy(fields[1..], event));
      }
    }
  }

  // Pins.

  lemma {:induction false} PinMatchesNothing(p: Pattern, v: FieldValue)
    requires HasPin(p)
    ensures MatchValue(p, v) == None
    decreases p, 0
  {
    match p {
      case ListOf(HeadTail(head, tail)) =>
        if v.List? && v.items != [] {
          if HasPin(head) { PinMatchesNothing(head, v.items[0]); }
          else { PinMatchesNothing(tail, List(v.items[1..])); }
        }
      case ListOf(Elements(patterns)) =>
        if v.List? && |v.items| == |patterns| {
          var i :| 0 <= i < |patterns| && HasPin(patterns[i]);
          PinInElements(patterns, v.items, i);
        }
      case MapOf(entries) =>
        if v.Map? {
          var i :| 0 <= i < |entries| && HasPin(entries[i].pattern);
          PinInEntries(entries, v.fields, i);
        }
      case _ =>
    }
  }

  lemma {:induction false} PinInElements(patterns: seq<Pattern>, items: seq<FieldValue>, i: nat)
    requires |patterns| == |items| && i < |patterns| && HasPin(patterns[i])
    ensures MatchElements(patterns, items) == None
    decreases patterns, 1
  {
    if i == 0 { PinMatchesNothing(patterns[0], items[0]); } else { PinInElements(patterns[1..], items[1..], i - 1); }
  }

  lemma {:induction false} PinInEntries(entries: Fields, m: FieldMap, i: nat)
    requires i < |entries| && HasPin(entries[i].pattern)
    ensures MatchEntries(entries, m) == None
    decreases entries, 1
  {
    if i == 0 {
      if entries[0].key in m { PinMatchesNothing(entries[0].pattern, m[entries[0].key]); }
    } else {
      PinInEntries(entries[1..], m, i - 1);
    }
  }

  /** A policy with a pin at any depth matches no event at all. */
  lemma {:induction false} PinnedPolicyIsDead(fields: Fields, event: FieldMap)
    requires exists i | 0 <= i < |fields| :: HasPin(fields[i].pattern)
    ensures MatchFields(fields, event) == None
  {
    if HasPin(fields[0].pattern) {
      if fields[0].key in event { PinMatchesNothing(fields[0].pattern, event[fields[0].key]); }
    } else {
      var i :| 0 <= i < |fields| && HasPin(fields[i].pattern);
      assert fields[1..][i - 1] == fields[i];
      PinnedPolicyIsDead(fields[1..], event);
    }
  }

  // A sequence of patterns matches when each of them does.

  lemma {:induction false} ElementsMatchIff(patterns: seq<Pattern>, items: seq<FieldValue>)
    requires |patterns| == |items|
    ensures MatchElements(patterns, items).Some?
      <==> forall i | 0 <= i < |patterns| :: MatchValue(patterns[i], items[i]).Some?
  {
    if patterns != [] {
      ElementsMatchIff(patterns[1..], items[1..]);
      assert forall i | 1 <= i < |patterns| :: patterns[i] == patterns[1..][i - 1] && items[i] == items[1..][i - 1];
      assert forall i | 0 <= i < |patterns[1..]| ::
        patterns[1..][i] == patterns[i + 1] && items[1..][i] == items[i + 1];
    }
  }

  lemma {:induction false} EntriesMatchIff(entries: Fields, m: FieldMap)
    ensures MatchEntries(entries, m).Some?
      <==> forall i | 0 <= i < |entries| ::
        entries[i].key in m && MatchValue(entries[i].pattern, m[entries[i].key]).Some?
  {
    if entries != [] {
      EntriesMatchIff(entries[1..], m);
      assert forall i | 1 <= i < |entries| :: entries[i] == entries[1..][i - 1];
      assert forall i | 0 <= i < |entries[1..]| :: entries[1..][i] == entries[i + 1];
    }
  }

  predicate FieldMatches(f: Field, event: FieldMap) {
    if f.key in event then MatchValue(f.pattern, event[f.key]).Some? else IsGlobal(f.pattern)
  }

  lemma {:induction false} PolicyMatchIff(fields: Fields, event: FieldMap)
    ensures MatchFields(fields, event).Some? <==> forall i | 0 <= i < |fields| :: FieldMatches(fields[i], event)
  {
    if fields != [] {
      PolicyMatchIff(fields[1..], event);
      assert forall i | 1 <= i < |fields| :: fields[i] == fields[1..][i - 1];
      assert forall i | 0 <= i < |fields[1..]| :: fields[1..][i] == fields[i + 1];
    }
  }

  // Larger events.

  ghost predicate Extends(small: FieldMap, large: FieldMap) {
    forall k | k in small :: k in large && large[k] == small[k]
  }

  /** Each key that the larger event adds to the policy's holds an enum. */
  ghost predicate AddsOnlyEnums(fields: Fields, small: FieldMap, large: FieldMap) {
    forall i | 0 <= i < |fields| :: fields[i].key in large && fields[i].key !in small ==> large[fields[i].key].Enum?
  }

  /** A matched policy keeps its bindings on a larger event, unless a new key gives `:global:` a non-enum. */
  lemma {:induction false} MatchStable(fields: Fields, small: FieldMap, large: FieldMap)
    requires Extends(small, large) && MatchFields(fields, small).Some?
    ensures MatchFields(fields, large) ==
      if AddsOnlyEnums(fields, small, large) then MatchFields(fields, small) else None
  {
    if fields != [] {
      var rest := fields[1..];
      MatchStable(rest, small, large);
      assert forall i | 0 <= i < |rest| :: rest[i] == fields[i + 1];
      assert forall i | 1 <= i < |fields| :: fields[i] == rest[i - 1];
      assert AddsOnlyEnums(fields, small, large) <==>
        AddsOnlyEnums(rest, small, large) &&
          (fields[0].key in large && fields[0].key !in small ==> large[fields[0].key].Enum?);
      if fields[0].key !in small && MatchFields(rest, large).Some? {
        var b := MatchFields(rest, large).value;
        assert map[] + b == b;
      }
    }
  }
}
