/** The script registry (`crates/luaml/src/registry.rs`). */
module Registry {
  import opened Wrappers
  import opened Values
  import opened Patterns
  import opened Matching
  import opened Satisfaction
  import opened Clauses
  import GuardGrammar
  import GuardLexer
  import GuardMeaning
  import PatternParser
  import Frontmatter
  import ScriptParser
  import Guards

  type NumberLib = GuardLexer.NumberLib

  datatype ClauseMatch = ClauseMatch(script: Script, clause: Clause, bindings: FieldBindings)

  datatype QueryResult = QueryResult(script: Script, clauseIndex: nat, clause: Clause)

  /** The policy matches and the guard, if there is one, is true; a guard that fails is not true. */
  predicate Fires(lib: NumberLib, clause: Clause, event: FieldMap) {
    var m := MatchFields(clause.policy, event);
    m.Some? && (clause.guard.Some? ==> Guards.EvaluateText(lib, clause.guard.value, m.value) == Ok(true))
  }

  /** There is no guard, or it is spelled by a derivation whose expression is true. */
  ghost predicate GuardAllows(lib: NumberLib, guard: Option<string>, b: FieldBindings) {
    guard.None? ||
    exists t :: GuardMeaning.Spells(lib, guard.value, t) && GuardMeaning.True(lib, GuardGrammar.OrExpr(t), b)
  }

  /** A clause fires exactly when its policy matches and its guard holds of what the policy binds. */
  lemma FiresIff(lib: NumberLib, clause: Clause, event: FieldMap)
    ensures Fires(lib, clause, event) <==>
      exists b :: MatchFields(clause.policy, event) == Some(b) && GuardAllows(lib, clause.guard, b)
  {
    hide MatchFields, Guards.EvaluateText, GuardMeaning.True, GuardMeaning.Spells;
    var m := MatchFields(clause.policy, event);
    if m.Some? {
      if clause.guard.Some? { GuardMeaning.GuardHoldsIff(lib, clause.guard.value, m.value); }
      assert Fires(lib, clause, event) <==> GuardAllows(lib, clause.guard, m.value);
    }
  }

  /** `i` is the first clause of the script that fires. */
  ghost predicate FirstFiring(lib: NumberLib, script: Script, event: FieldMap, i: nat) {
    && i < |script.clauses|
    && Fires(lib, script.clauses[i], event)
    && forall j | 0 <= j < i :: !Fires(lib, script.clauses[j], event)
  }

  ghost predicate AnyFires(lib: NumberLib, script: Script, event: FieldMap) {
    exists i | 0 <= i < |script.clauses| :: Fires(lib, script.clauses[i], event)
  }

  /** The first match from clause `from` on. */
  function FirstMatchFrom(lib: NumberLib, script: Script, event: FieldMap, from: nat): Option<ClauseMatch>
    decreases |script.clauses| - from
  {
    if from >= |script.clauses| then None
    else
      var clause := script.clauses[from];
      if Fires(lib, clause, event)
      then Some(ClauseMatch(script, clause, MatchFields(clause.policy, event).value))
      else FirstMatchFrom(lib, script, event, from + 1)
  }

  function FirstMatch(lib: NumberLib, script: Script, event: FieldMap): Option<ClauseMatch> {
    FirstMatchFrom(lib, script, event, 0)
  }

  function MatchAll(lib: NumberLib, scripts: seq<Script>, event: FieldMap): seq<ClauseMatch> {
    if scripts == [] then []
    else
      var rest := MatchAll(lib, scripts[1..], event);
      match FirstMatch(lib, scripts[0], event)
      case None => rest
      case Some(m) => [m] + rest
  }

  ghost predicate IsFirstMatch(lib: NumberLib, m: ClauseMatch, event: FieldMap) {
    exists i :: 0 <= i && FirstFiring(lib, m.script, event, i) && m.clause == m.script.clauses[i]
      && MatchFields(m.clause.policy, event) == Some(m.bindings)
  }

  /** The first clause that fires is the one returned, with the bindings of its policy. */
  lemma {:induction false} FirstMatchIsFirst(lib: NumberLib, script: Script, event: FieldMap, from: nat)
    requires forall j | 0 <= j < from && j < |script.clauses| :: !Fires(lib, script.clauses[j], event)
    ensures var m := FirstMatchFrom(lib, script, event, from);
      if m.None? then !AnyFires(lib, script, event)
      else m.value.script == script && IsFirstMatch(lib, m.value, event)
    decreases |script.clauses| - from
  {
    if from < |script.clauses| {
      if Fires(lib, script.clauses[from], event) {
        assert FirstFiring(lib, script, event, from);
      } else {
        FirstMatchIsFirst(lib, script, event, from + 1);
      }
    }
  }

  /** The scripts with a firing clause, in registration order. */
  function Firing(lib: NumberLib, scripts: seq<Script>, event: FieldMap): seq<Script> {
    if scripts == [] then []
    else
      var rest := Firing(lib, scripts[1..], event);
      if FirstMatch(lib, scripts[0], event).Some? then [scripts[0]] + rest else rest
  }

  /** `match_clauses` answers with one match for each firing script, in order: its least firing clause. */
  lemma {:induction false} MatchAllExact(lib: NumberLib, scripts: seq<Script>, event: FieldMap)
    ensures var matches, firing := MatchAll(lib, scripts, event), Firing(lib, scripts, event);
      && |matches| == |firing| <= |scripts|
      && (forall k | 0 <= k < |matches| :: matches[k].script == firing[k])
      && (forall k | 0 <= k < |matches| :: IsFirstMatch(lib, matches[k], event))
  {
    if scripts != [] {
      MatchAllExact(lib, scripts[1..], event);
      FirstMatchIsFirst(lib, scripts[0], event, 0);
      var m, rest := FirstMatch(lib, scripts[0], event), MatchAll(lib, scripts[1..], event);
      assert MatchAll(lib, scripts, event) == if m.Some? then [m.value] + rest else rest;
    }
  }

  lemma FiringIffAnyFires(lib: NumberLib, script: Script, event: FieldMap)
    ensures FirstMatch(lib, script, event).Some? <==> AnyFires(lib, script, event)
  {
    FirstMatchIsFirst(lib, script, event, 0);
  }

  /** A larger event that gives `:global:` fields only enums is caught by the same clause or an earlier one. */
  lemma FirstMatchStable(lib: NumberLib, script: Script, small: FieldMap, large: FieldMap, i: nat)
    requires FirstFiring(lib, script, small, i) && Extends(small, large)
    requires AddsOnlyEnums(script.clauses[i].policy, small, large)
    ensures exists j | 0 <= j <= i :: FirstFiring(lib, script, large, j)
  {
    MatchStable(script.clauses[i].policy, small, large);
    assert Fires(lib, script.clauses[i], large);
    var j := 0;
    while !Fires(lib, script.clauses[j], large)
      invariant j <= i
      invariant forall k | 0 <= k < j :: !Fires(lib, script.clauses[k], large)
      decreases i - j
    {
      j := j + 1;
    }
    assert FirstFiring(lib, script, large, j);
  }

  // Discovery.

  /** Every query field names a pattern that accepts its value. */
  ghost predicate SubsetMatches(query: FieldMap, fields: Fields) {
    forall k | k in query :: Lookup(fields, k).Some? && MatchValue(Lookup(fields, k).value, query[k]).Some?
  }

  method QueryMatches(query: FieldMap, fields: Fields) returns (ok: bool)
    ensures ok <==> SubsetMatches(query, fields)
  {
    var pending := query.Keys;
    while pending != {}
      invariant pending <= query.Keys
      invariant forall k | k in query && k !in pending ::
        Lookup(fields, k).Some? && MatchValue(Lookup(fields, k).value, query[k]).Some?
    {
      var key :| key in pending;
      pending := pending - {key};
      var i := FindField(fields, key);
      if i == |fields| {
        return false;
      }
      var m := MatchFieldValue(fields[i].pattern, query[key]);
      if m.None? {
        return false;
      }
    }
    return true;
  }

  /** A policy that matches an event is found by every part of the event that the policy constrains. */
  lemma QueryFindsMatching(fields: Fields, event: FieldMap, query: FieldMap)
    requires MatchFields(fields, event).Some?
    requires Extends(query, event) && forall k | k in query :: Lookup(fields, k).Some?
    ensures SubsetMatches(query, fields)
  {
    forall k | k in query ensures MatchValue(Lookup(fields, k).value, query[k]).Some? {
      MatchedFieldMatches(fields, event, k);
    }
  }

  lemma {:induction false} MatchedFieldMatches(fields: Fields, event: FieldMap, key: string)
    requires MatchFields(fields, event).Some? && key in event && Lookup(fields, key).Some?
    ensures MatchValue(Lookup(fields, key).value, event[key]).Some?
  {
    if fields[0].key != key { MatchedFieldMatches(fields[1..], event, key); }
  }

  // Which patterns some value matches.

  predicate Satisfiable(p: Pattern) {
    Meet([p]).Some?
  }

  lemma SatisfiableIffMatched(p: Pattern)
    ensures Satisfiable(p) <==> exists v :: MatchValue(p, v).Some?
  {
    hide Meet, MatchValue;
    if Satisfiable(p) {
      MeetSound([p]);
      assert p in [p];
      assert MatchValue(p, Meet([p]).value).Some?;
    }
    if v :| MatchValue(p, v).Some? {
      assert AllMatch([p], v);
      MeetComplete([p], v);
    }
  }

  /** The fields whose keys the query leaves open. */
  function Open(query: FieldMap, fields: Fields): (open: Fields)
    ensures forall f :: f in open <==> f in fields && f.key !in query
  {
    if fields == [] then []
    else (if fields[0].key in query then [] else [fields[0]]) + Open(query, fields[1..])
  }

  /** The query's values suit every field with their keys, and one value suits all fields of any other key. */
  ghost predicate Discoverable(query: FieldMap, fields: Fields) {
    && SubsetMatches(query, fields)
    && (forall f | f in fields && f.key in query :: MatchValue(f.pattern, query[f.key]).Some?)
    && MeetFields(Open(query, fields)).Some?
  }

  ghost predicate SomeEventMatches(query: FieldMap, fields: Fields) {
    exists event: FieldMap :: Extends(query, event) && MatchFields(fields, event).Some?
  }

  /** The query completed by values for the open fields matches the policy. */
  lemma DiscoveredEventMatches(query: FieldMap, fields: Fields)
    requires Discoverable(query, fields)
    ensures var event := MeetFields(Open(query, fields)).value + query;
      Extends(query, event) && MatchFields(fields, event).Some?
  {
    var open := Open(query, fields);
    var event := MeetFields(open).value + query;
    MeetFieldsSound(open);
    forall i | 0 <= i < |fields| ensures FieldMatches(fields[i], event) {
      assert fields[i] in fields;
      if fields[i].key !in query { assert fields[i] in open; }
    }
    PolicyMatchIff(fields, event);
  }

  /** The event with an enum for every key of the fields that it misses. */
  function Filled(event: FieldMap, fields: Fields): (filled: FieldMap)
    ensures Extends(event, filled)
    ensures forall f | f in fields :: f.key in filled
    ensures forall k | k in filled :: k in event || filled[k] == Enum(GLOBAL_ENUM)
  {
    if fields == [] then event
    else
      var filled := Filled(event, fields[1..]);
      if fields[0].key in filled then filled else filled[fields[0].key := Enum(GLOBAL_ENUM)]
  }

  lemma MatchedIsMet(query: FieldMap, fields: Fields, event: FieldMap)
    requires Extends(query, event) && MatchFields(fields, event).Some?
    ensures MeetFields(Open(query, fields)).Some?
    ensures forall f | f in fields && f.key in query :: MatchValue(f.pattern, query[f.key]).Some?
  {
    PolicyMatchIff(fields, event);
    var filled := Filled(event, fields);
    forall f | f in fields ensures f.key in filled && MatchValue(f.pattern, filled[f.key]).Some? {
      var i :| 0 <= i < |fields| && fields[i] == f;
      assert FieldMatches(fields[i], event);
    }
    MeetFieldsComplete(Open(query, fields), filled);
  }

  /**
   `query_subset` looks at the first field of each key. Its answer means that some event extending the query
   matches the policy exactly when the policy's other fields can be met as well.
   */
  lemma QueryExact(query: FieldMap, fields: Fields)
    ensures Discoverable(query, fields)
      <==> (forall k | k in query :: Lookup(fields, k).Some?) && SomeEventMatches(query, fields)
  {
    hide MatchFields, MatchValue, MeetFields, Open, Extends;
    if Discoverable(query, fields) {
      DiscoveredEventMatches(query, fields);
    }
    if (forall k | k in query :: Lookup(fields, k).Some?) && SomeEventMatches(query, fields) {
      var event: FieldMap :| Extends(query, event) && MatchFields(fields, event).Some?;
      QueryFindsMatching(fields, event, query);
      MatchedIsMet(query, fields, event);
    }
  }

  // The registry.

  /** All clauses that a query discovers, script by script. */
  ghost function QueryAll(scripts: seq<Script>, query: FieldMap): seq<QueryResult> {
    if scripts == [] then []
    else QueryScript(scripts[0], query, 0) + QueryAll(scripts[1..], query)
  }

  ghost function QueryScript(script: Script, query: FieldMap, from: nat): seq<QueryResult>
    decreases |script.clauses| - from
  {
    if from >= |script.clauses| then []
    else
      (if SubsetMatches(query, script.clauses[from].policy)
       then [QueryResult(script, from, script.clauses[from])] else [])
      + QueryScript(script, query, from + 1)
  }

  /** The result is a clause of the script that suits the query. */
  ghost predicate Discovered(script: Script, query: FieldMap, r: QueryResult) {
    && r.script == script && r.clauseIndex < |script.clauses|
    && r.clause == script.clauses[r.clauseIndex] && SubsetMatches(query, r.clause.policy)
  }

  ghost predicate Ascending(results: seq<QueryResult>) {
    forall i, j | 0 <= i < j < |results| :: results[i].clauseIndex < results[j].clauseIndex
  }

  lemma {:induction false} QueryScriptExact(script: Script, query: FieldMap, from: nat)
    ensures var results := QueryScript(script, query, from);
      && (forall r :: r in results <==> from <= r.clauseIndex && Discovered(script, query, r))
      && Ascending(results)
    decreases |script.clauses| - from
  {
    hide SubsetMatches;
    if from < |script.clauses| {
      var first := QueryResult(script, from, script.clauses[from]);
      QueryScriptExact(script, query, from + 1);
      var rest := QueryScript(script, query, from + 1);
      assert QueryScript(script, query, from) ==
        (if SubsetMatches(query, first.clause.policy) then [first] else []) + rest;
      assert forall r: QueryResult | r.clauseIndex == from ::
        Discovered(script, query, r) <==> SubsetMatches(query, first.clause.policy) && r == first;
      hide QueryScript, Discovered;
      AscendingCons(first, rest);
    }
  }

  lemma AscendingCons(first: QueryResult, rest: seq<QueryResult>)
    requires Ascending(rest) && forall r | r in rest :: first.clauseIndex < r.clauseIndex
    ensures Ascending([first] + rest)
  {
    forall i | 0 <= i < |rest| ensures first.clauseIndex < rest[i].clauseIndex { assert rest[i] in rest; }
  }

  /**
   `query_subset` finds exactly the clauses that suit the query, script by script in registration order and
   clause by clause within a script.
   */
  lemma {:induction false} QueryAllExact(scripts: seq<Script>, query: FieldMap)
    ensures forall r :: r in QueryAll(scripts, query) <==> r.script in scripts && Discovered(r.script, query, r)
  {
    if scripts != [] {
      QueryScriptExact(scripts[0], query, 0);
      QueryAllExact(scripts[1..], query);
      assert forall s :: s in scripts <==> s == scripts[0] || s in scripts[1..];
    }
  }

  lemma QueryAllInOrder(before: seq<Script>, script: Script, after: seq<Script>, query: FieldMap)
    ensures var found := QueryScript(script, query, 0);
      && QueryAll(before + [script] + after, query) == QueryAll(before, query) + found + QueryAll(after, query)
      && Ascending(found)
  {
    hide QueryScript, Ascending, Discovered;
    QueryScriptExact(script, query, 0);
    QueryAllAppends(before + [script], after, query);
    QueryAllAppends(before, [script], query);
    assert [script][1..] == [] && QueryAll([script], query) == QueryScript(script, query, 0) + [];
  }

  lemma {:induction false} QueryAllAppends(a: seq<Script>, b: seq<Script>, query: FieldMap)
    ensures QueryAll(a + b, query) == QueryAll(a, query) + QueryAll(b, query)
  {
    hide QueryScript;
    if a == [] {
      assert a + b == b;
      assert QueryAll(a, query) + QueryAll(b, query) == QueryAll(b, query);
    } else {
      QueryAllAppends(a[1..], b, query);
      assert (a + b)[0] == a[0] && (a + b)[1..] == a[1..] + b;
      ConcatThree(QueryScript(a[0], query, 0), QueryAll(a[1..], query), QueryAll(b, query));
    }
  }

  function Without(scripts: seq<Script>, path: string): seq<Script> {
    if scripts == [] then []
    else (if scripts[0].sourcePath == path then [] else [scripts[0]]) + Without(scripts[1..], path)
  }

  lemma NothingWithout(path: string)
    ensures Without([], path) == []
  {
  }

  lemma WithoutStep(scripts: seq<Script>, i: nat, path: string, before: seq<Script>)
    requires i < |scripts|
    ensures before + Without(scripts[i..], path) ==
      (if scripts[i].sourcePath == path then before else before + [scripts[i]]) + Without(scripts[i + 1..], path)
  {
    var kept := if scripts[i].sourcePath == path then [] else [scripts[i]];
    assert scripts[i..][0] == scripts[i] && scripts[i..][1..] == scripts[i + 1..];
    ConcatThree(before, kept, Without(scripts[i + 1..], path));
  }

  /** Unregistering goes script by script: each stays or goes by its own path, and the rest keep their order. */
  lemma {:induction false} WithoutAppends(a: seq<Script>, b: seq<Script>, path: string)
    ensures Without(a + b, path) == Without(a, path) + Without(b, path)
  {
    if a == [] {
      assert a + b == b;
      assert Without(a, path) + Without(b, path) == Without(b, path);
    } else {
      WithoutAppends(a[1..], b, path);
      assert (a + b)[0] == a[0] && (a + b)[1..] == a[1..] + b;
      ConcatThree(if a[0].sourcePath == path then [] else [a[0]], Without(a[1..], path), Without(b, path));
    }
  }

  lemma MatchAllStep(lib: NumberLib, scripts: seq<Script>, i: nat, event: FieldMap, before: seq<ClauseMatch>)
    requires i < |scripts|
    ensures var m := FirstMatch(lib, scripts[i], event);
      before + MatchAll(lib, scripts[i..], event)
      == (if m.Some? then before + [m.value] else before) + MatchAll(lib, scripts[i + 1..], event)
  {
    assert scripts[i..][0] == scripts[i] && scripts[i..][1..] == scripts[i + 1..];
    var m := FirstMatch(lib, scripts[i], event);
    if m.Some? {
      var rest := MatchAll(lib, scripts[i + 1..], event);
      assert before + ([m.value] + rest) == (before + [m.value]) + rest;
    }
  }

  class ScriptRegistry {
    var scripts: seq<Script>

    constructor ()
      ensures scripts == []
    {
      scripts := [];
    }

    method Register(script: Script)
      modifies this
      ensures scripts == old(scripts) + [script]
    {
      scripts := scripts + [script];
    }

    method Unregister(path: string) returns (removed: bool)
      modifies this
      ensures scripts == Without(old(scripts), path)
      ensures removed <==> |scripts| != |old(scripts)|
    {
      hide Without;
      var kept: seq<Script> := [];
      assert scripts[0..] == scripts;
      for i := 0 to |scripts|
        invariant scripts == old(scripts) && kept + Without(scripts[i..], path) == Without(scripts, path)
      {
        WithoutStep(scripts, i, path, kept);
        if scripts[i].sourcePath != path {
          kept := kept + [scripts[i]];
        }
      }
      NothingWithout(path);
      assert scripts[|scripts|..] == [] && kept + [] == kept;
      removed := |kept| != |scripts|;
      scripts := kept;
    }

    /** Registers the script of a text; a text that is not read registers nothing. */
    method RegisterText(u: PatternParser.Unicode, path: string, lines: seq<string>)
      returns (r: Result<(), Frontmatter.ScriptError>)
      modifies this
      ensures match ScriptParser.ParseScript(u, path, lines)
        case Err(error) => r == Err(error) && scripts == old(scripts)
        case Ok(script) => r == Ok(()) && scripts == old(scripts) + [script]
    {
      var script := ScriptParser.ParseLuaml(u, path, lines);
      if script.Err? {
        return Err(script.error);
      }
      Register(script.value);
      return Ok(());
    }

    /** The old version goes before the new text is read. */
    method Replace(u: PatternParser.Unicode, path: string, lines: seq<string>)
      returns (r: Result<bool, Frontmatter.ScriptError>)
      modifies this
      ensures scripts == Replaced(u, old(scripts), path, lines)
      ensures match ScriptParser.ParseScript(u, path, lines)
        case Err(error) => r == Err(error)
        case Ok(_) => r == Ok(|Without(old(scripts), path)| != |old(scripts)|)
    {
      var replaced := Unregister(path);
      var registered := RegisterText(u, path, lines);
      if registered.Err? {
        return Err(registered.error);
      }
      return Ok(replaced);
    }

    method Clear()
      modifies this
      ensures scripts == []
    {
      scripts := [];
    }

    method MatchClauses(lib: NumberLib, event: FieldMap) returns (matches: seq<ClauseMatch>)
      ensures matches == MatchAll(lib, scripts, event)
    {
      matches := [];
      assert scripts[0..] == scripts;
      for i := 0 to |scripts|
        invariant matches + MatchAll(lib, scripts[i..], event) == MatchAll(lib, scripts, event)
      {
        var m := MatchFirstClause(lib, scripts[i], event);
        MatchAllStep(lib, scripts, i, event, matches);
        if m.Some? {
          matches := matches + [m.value];
        }
      }
    }

    method QuerySubset(query: FieldMap) returns (results: seq<QueryResult>)
      ensures results == QueryAll(scripts, query)
    {
      results := [];
      assert scripts[0..] == scripts;
      for i := 0 to |scripts|
        invariant results + QueryAll(scripts[i..], query) == QueryAll(scripts, query)
      {
        ghost var rest, before := scripts[i..], results;
        assert rest[0] == scripts[i] && rest[1..] == scripts[i + 1..];
        var found := QueryClauses(scripts[i], query);
        results := results + found;
        assert before + (found + QueryAll(rest[1..], query)) == results + QueryAll(rest[1..], query);
      }
    }
  }

  method MatchFirstClause(lib: NumberLib, script: Script, event: FieldMap) returns (found: Option<ClauseMatch>)
    ensures found == FirstMatch(lib, script, event)
  {
    for i := 0 to |script.clauses|
      invariant FirstMatchFrom(lib, script, event, i) == FirstMatch(lib, script, event)
    {
      var clause := script.clauses[i];
      var m := MatchPolicy(clause.policy, event);
      if m.None? {
        continue;
      }
      if clause.guard.Some? {
        var verdict := Guards.EvaluateGuard(lib, clause.guard.value, m.value);
        if verdict != Ok(true) {
          continue;
        }
      }
      return Some(ClauseMatch(script, clause, m.value));
    }
    return None;
  }

  lemma QueryStep(script: Script, query: FieldMap, i: nat, before: seq<QueryResult>)
    requires i < |script.clauses|
    ensures before + QueryScript(script, query, i) ==
      (if SubsetMatches(query, script.clauses[i].policy)
       then before + [QueryResult(script, i, script.clauses[i])] else before) + QueryScript(script, query, i + 1)
  {
    hide SubsetMatches;
    var rest := QueryScript(script, query, i + 1);
    ConcatThree(before, [QueryResult(script, i, script.clauses[i])], rest);
    assert [] + rest == rest;
  }

  method QueryClauses(script: Script, query: FieldMap) returns (results: seq<QueryResult>)
    ensures results == QueryScript(script, query, 0)
  {
    results := [];
    for i := 0 to |script.clauses|
      invariant results + QueryScript(script, query, i) == QueryScript(script, query, 0)
    {
      QueryStep(script, query, i, results);
      var ok := QueryMatches(query, script.clauses[i].policy);
      if ok {
        results := results + [QueryResult(script, i, script.clauses[i])];
      }
    }
  }

  /** Unregistering a path removes its scripts, and keeps the others in their order. */
  lemma {:induction false} WithoutExact(scripts: seq<Script>, path: string)
    ensures forall s :: s in Without(scripts, path) <==> s in scripts && s.sourcePath != path
    ensures |Without(scripts, path)| <= |scripts|
    ensures |Without(scripts, path)| == |scripts| <==> forall s | s in scripts :: s.sourcePath != path
  {
    if scripts != [] {
      WithoutExact(scripts[1..], path);
      assert scripts == [scripts[0]] + scripts[1..];
    }
  }

  /** The registry after replacing the script of a path by a text. */
  function Replaced(u: PatternParser.Unicode, scripts: seq<Script>, path: string, lines: seq<string>): seq<Script> {
    Without(scripts, path) +
    match ScriptParser.ParseScript(u, path, lines)
    case Err(_) => []
    case Ok(script) => [script]
  }

  /** Replacing is a swap or a no-op: the path's scripts give way to the new one, or nothing happens. */
  ghost predicate Atomic(u: PatternParser.Unicode, scripts: seq<Script>, path: string, lines: seq<string>) {
    var r, after := ScriptParser.ParseScript(u, path, lines), Replaced(u, scripts, path, lines);
    if r.Err? then after == scripts
    else
      && r.value in after
      && (forall s | s in after && s.sourcePath == path :: s == r.value)
      && (forall s: Script | s.sourcePath != path :: s in after <==> s in scripts)
  }

  /** Replacing is atomic exactly when the text is read, or there was nothing to lose. */
  lemma ReplaceIsAtomicIff(u: PatternParser.Unicode, scripts: seq<Script>, path: string, lines: seq<string>)
    ensures Atomic(u, scripts, path, lines) <==>
      ScriptParser.ParseScript(u, path, lines).Ok? || forall s | s in scripts :: s.sourcePath != path
  {
    WithoutExact(scripts, path);
    var r := ScriptParser.ParseScript(u, path, lines);
    if r.Ok? {
      ParsedPath(u, path, lines);
    } else {
      NothingLost(scripts, path);
    }
  }

  /** Scripts registered later answer later. */
  lemma {:induction false} MatchAllAppends(lib: NumberLib, a: seq<Script>, b: seq<Script>, event: FieldMap)
    ensures MatchAll(lib, a + b, event) == MatchAll(lib, a, event) + MatchAll(lib, b, event)
  {
    hide FirstMatch;
    if a == [] {
      assert a + b == b;
      assert MatchAll(lib, a, event) + MatchAll(lib, b, event) == MatchAll(lib, b, event);
    } else {
      MatchAllAppends(lib, a[1..], b, event);
      assert (a + b)[0] == a[0] && (a + b)[1..] == a[1..] + b;
      var m := FirstMatch(lib, a[0], event);
      if m.Some? { ConcatThree([m.value], MatchAll(lib, a[1..], event), MatchAll(lib, b, event)); }
    }
  }

  /** The new version of a script answers after all others, wherever the old one stood. */
  lemma ReplacedAnswersLast(lib: NumberLib, u: PatternParser.Unicode, scripts: seq<Script>, path: string,
      lines: seq<string>, event: FieldMap)
    requires ScriptParser.ParseScript(u, path, lines).Ok?
    ensures MatchAll(lib, Replaced(u, scripts, path, lines), event) == MatchAll(lib, Without(scripts, path), event)
      + MatchAll(lib, [ScriptParser.ParseScript(u, path, lines).value], event)
  {
    MatchAllAppends(lib, Without(scripts, path), [ScriptParser.ParseScript(u, path, lines).value], event);
  }

  /** `i` is the only place of the path's scripts. */
  ghost predicate OnlyAt(scripts: seq<Script>, path: string, i: nat) {
    i < |scripts| && forall j | 0 <= j < |scripts| :: scripts[j].sourcePath == path <==> j == i
  }

  /** A replaced script keeps its place exactly when that place was the last. */
  lemma ReplaceKeepsPlaceIff(u: PatternParser.Unicode, scripts: seq<Script>, path: string, lines: seq<string>, i: nat)
    requires ScriptParser.ParseScript(u, path, lines).Ok? && OnlyAt(scripts, path, i)
    ensures var script := ScriptParser.ParseScript(u, path, lines).value;
      && Replaced(u, scripts, path, lines) == scripts[..i] + scripts[i + 1..] + [script]
      && (Replaced(u, scripts, path, lines) == scripts[i := script] <==> i == |scripts| - 1)
  {
    hide ScriptParser.ParseScript;
    var script := ScriptParser.ParseScript(u, path, lines).value;
    WithoutOnly(scripts, path, i);
    ParsedPath(u, path, lines);
    var moved := scripts[..i] + scripts[i + 1..] + [script];
    if i < |scripts| - 1 {
      assert moved[i] == scripts[i + 1];
    } else {
      assert moved == scripts[i := script];
    }
  }

  lemma {:induction false} WithoutOnly(scripts: seq<Script>, path: string, i: nat)
    requires OnlyAt(scripts, path, i)
    ensures Without(scripts, path) == scripts[..i] + scripts[i + 1..]
  {
    if i == 0 {
      NothingLost(scripts[1..], path);
      assert Without(scripts[1..], path) == scripts[1..];
    } else {
      assert OnlyAt(scripts[1..], path, i - 1);
      WithoutOnly(scripts[1..], path, i - 1);
      assert scripts[..i] == [scripts[0]] + scripts[1..][..i - 1];
      assert scripts[i + 1..] == scripts[1..][i..];
    }
  }

  /** An empty text is not read, so replacing by it loses the registered script. */
  lemma FailedReplaceLosesScript(u: PatternParser.Unicode, script: Script)
    ensures ScriptParser.ParseScript(u, script.sourcePath, []).Err?
    ensures Replaced(u, [script], script.sourcePath, []) == []
    ensures !Atomic(u, [script], script.sourcePath, [])
  {
    assert [script][1..] == [] && Without([script][1..], script.sourcePath) == [] && script in [script];
  }

  lemma ParsedPath(u: PatternParser.Unicode, path: string, lines: seq<string>)
    requires ScriptParser.ParseScript(u, path, lines).Ok?
    ensures ScriptParser.ParseScript(u, path, lines).value.sourcePath == path
  {
    var header, parts, base := ScriptParser.ScriptIsItsParts(u, path, lines);
  }

  lemma {:induction false} NothingLost(scripts: seq<Script>, path: string)
    ensures Without(scripts, path) + [] == scripts <==> forall s | s in scripts :: s.sourcePath != path
  {
    WithoutExact(scripts, path);
    if scripts != [] && scripts[0].sourcePath != path {
      NothingLost(scripts[1..], path);
    }
  }
}
