/** Dispatch (`crates/luaml/src/lib.rs`). */
module Cascade {
  // Depth-first dispatch with a depth limit, an emission budget and a stack of visited events.

  import opened Wrappers
  import opened Values
  import opened Signatures
  import opened Clauses
  import opened Registry

  datatype CascadeConfig = CascadeConfig(maxDepth: u32, budget: u32)

  /** What went wrong, with the numbers that the message spells out. */
  datatype ClauseError =
    | Body(message: string)
    | CascadeDepth(depth: nat, maxDepth: nat)
    | CascadeCycle(depth: nat)
    | CascadeBudget(budget: nat, depth: nat)

  type BodyResult = Result<seq<FieldMap>, string>

  datatype ClauseOutcome = ClauseOutcome(
    scriptPath: string,
    clause: Clause,
    bindings: FieldBindings,
    result: Result<seq<FieldMap>, ClauseError>)

  const SYNTHETIC_CLAUSE := Clause([], None, "", [], map[])

  function Synthetic(error: ClauseError): ClauseOutcome {
    ClauseOutcome("", SYNTHETIC_CLAUSE, map[], Err(error))
  }

  predicate IsDepth(o: ClauseOutcome) { o.result.Err? && o.result.error.CascadeDepth? }

  predicate IsCycle(o: ClauseOutcome) { o.result.Err? && o.result.error.CascadeCycle? }

  predicate IsBudget(o: ClauseOutcome) { o.result.Err? && o.result.error.CascadeBudget? }

  /**
   What dispatch is made of: the matches of an event, the signature of an event, and the Lua bodies as
   deterministic functions of the world, the clause and its bindings.
   */
  datatype Env<!W> = Env(
    matching: FieldMap -> seq<ClauseMatch>,
    signature: FieldMap -> EventSig,
    lua: (W, Clause, FieldBindings) -> (W, BodyResult))

  /** Dispatch over registered scripts. */
  function ScriptEnv<W>(scripts: seq<Script>, lib: NumberLib,
      lua: (W, Clause, FieldBindings) -> (W, BodyResult)): Env<W> {
    Env(event => MatchAll(lib, scripts, event), event => EventSignature(event), lua)
  }

  /** Signatures tell events apart, and an event has at most `scripts` matches. */
  ghost predicate Faithful<W>(env: Env<W>, scripts: nat) {
    && (forall a, b :: env.signature(a) == env.signature(b) ==> a == b)
    && (forall event :: |env.matching(event)| <= scripts)
  }

  lemma ScriptEnvIsFaithful<W>(scripts: seq<Script>, lib: NumberLib, lua: (W, Clause, FieldBindings) -> (W, BodyResult))
    ensures Faithful(ScriptEnv(scripts, lib, lua), |scripts|)
  {
    var env := ScriptEnv(scripts, lib, lua);
    forall a, b | env.signature(a) == env.signature(b) ensures a == b { EventSignatureInjective(a, b); }
    forall event ensures |env.matching(event)| <= |scripts| { MatchAllExact(lib, scripts, event); }
  }

  datatype Verdict = TooDeep | Cycle | Runs

  /** A call of `dispatch_inner`: its active ancestors, its event, the visited set on entry, its fate. */
  datatype Entry = Entry(path: seq<FieldMap>, event: FieldMap, visited: set<EventSig>, verdict: Verdict)

  datatype State<W> = State(
    world: W,
    visited: set<EventSig>,
    budget: nat,
    outcomes: seq<ClauseOutcome>,
    matched: nat,
    emitted: nat,
    depthMax: nat,
    lastError: map<string, ClauseError>,
    log: seq<Entry>)
  {
    function Push(o: ClauseOutcome): State<W> {
      this.(outcomes := outcomes + [o])
    }

    function Enter(path: seq<FieldMap>, event: FieldMap, verdict: Verdict): State<W> {
      this.(log := log + [Entry(path, event, visited, verdict)],
            depthMax := if depthMax < |path| then |path| else depthMax)
    }
  }

  /** `execute_matched`: a body that raises emits nothing. */
  function Execute<W>(env: Env<W>, m: ClauseMatch, world: W): (W, ClauseOutcome, seq<FieldMap>) {
    var (w, result) := env.lua(world, m.clause, m.bindings);
    match result
    case Ok(emissions) => (w, ClauseOutcome(m.script.sourcePath, m.clause, m.bindings, Ok(emissions)), emissions)
    case Err(message) => (w, ClauseOutcome(m.script.sourcePath, m.clause, m.bindings, Err(Body(message))), [])
  }

  /** The state after the body of `m` has run, before its emissions are dispatched. */
  function Executed<W>(env: Env<W>, m: ClauseMatch, st: State<W>): State<W> {
    var (w, outcome, emissions) := Execute(env, m, st.world);
    st.Push(outcome).(
      world := w,
      lastError :=
        if outcome.result.Err? then st.lastError[outcome.scriptPath := outcome.result.error] else st.lastError)
  }

  // Dispatch as functions on states.  `path` holds the active events, outermost first.

  function DispatchInner<W>(env: Env<W>, cfg: CascadeConfig, event: FieldMap, st: State<W>,
      path: seq<FieldMap>): (r: State<W>)
    ensures r.budget <= st.budget
    decreases st.budget, 2, 0
  {
    var sig := env.signature(event);
    if |path| >= cfg.maxDepth then
      st.Enter(path, event, TooDeep).Push(Synthetic(CascadeDepth(|path|, cfg.maxDepth)))
    else if sig in st.visited then
      st.Enter(path, event, Cycle).Push(Synthetic(CascadeCycle(|path|)))
    else
      var matches := env.matching(event);
      var entered := st.Enter(path, event, Runs).(visited := st.visited + {sig}, matched := st.matched + |matches|);
      var r := RunMatches(env, cfg, matches, entered, path + [event]);
      r.(visited := r.visited - {sig})
  }

  function RunMatches<W>(env: Env<W>, cfg: CascadeConfig, matches: seq<ClauseMatch>, st: State<W>,
      path: seq<FieldMap>): (r: State<W>)
    ensures r.budget <= st.budget
    decreases st.budget, 1, |matches|
  {
    if matches == [] then st
    else
      var emissions := Execute(env, matches[0], st.world).2;
      var (r, exhausted) := RunEmissions(env, cfg, emissions, Executed(env, matches[0], st), path);
      if exhausted then r else RunMatches(env, cfg, matches[1..], r, path)
  }

  /** Also tells whether the budget ran out, which ends the work of the emitting event. */
  function RunEmissions<W>(env: Env<W>, cfg: CascadeConfig, emissions: seq<FieldMap>, st: State<W>,
      path: seq<FieldMap>): (r: (State<W>, bool))
    ensures r.0.budget <= st.budget
    decreases st.budget, 0, |emissions|
  {
    if emissions == [] then (st, false)
    else if st.budget == 0 then (st.Push(Synthetic(CascadeBudget(cfg.budget, |path|))), true)
    else
      var spent := st.(budget := st.budget - 1, emitted := st.emitted + 1);
      RunEmissions(env, cfg, emissions[1..], DispatchInner(env, cfg, emissions[0], spent, path), path)
  }

  lemma UnfoldDispatch<W>(env: Env<W>, cfg: CascadeConfig, event: FieldMap, st: State<W>, path: seq<FieldMap>,
      matches: seq<ClauseMatch>, entered: State<W>)
    requires |path| < cfg.maxDepth && env.signature(event) !in st.visited && matches == env.matching(event)
    requires entered == st.Enter(path, event, Runs).(
      visited := st.visited + {env.signature(event)}, matched := st.matched + |matches|)
    ensures var r := RunMatches(env, cfg, matches, entered, path + [event]);
      DispatchInner(env, cfg, event, st, path) == r.(visited := r.visited - {env.signature(event)})
  {
    hide RunMatches, State.Enter;
    var sig := env.signature(event);
    assert DispatchInner(env, cfg, event, st, path) ==
      (var r := RunMatches(env, cfg, matches, entered, path + [event]); r.(visited := r.visited - {sig}));
  }

  lemma UnfoldMatches<W>(env: Env<W>, cfg: CascadeConfig, matches: seq<ClauseMatch>, st: State<W>, path: seq<FieldMap>)
    requires matches != []
    ensures var (r, exhausted) :=
        RunEmissions(env, cfg, Execute(env, matches[0], st.world).2, Executed(env, matches[0], st), path);
      RunMatches(env, cfg, matches, st, path) == if exhausted then r else RunMatches(env, cfg, matches[1..], r, path)
  {
  }

  lemma UnfoldEmissions<W>(env: Env<W>, cfg: CascadeConfig, emissions: seq<FieldMap>, i: nat, st: State<W>,
      path: seq<FieldMap>)
    requires i < |emissions|
    ensures RunEmissions(env, cfg, emissions[i..], st, path) ==
      if st.budget == 0 then (st.Push(Synthetic(CascadeBudget(cfg.budget, |path|))), true)
      else
        var spent := st.(budget := st.budget - 1, emitted := st.emitted + 1);
        RunEmissions(env, cfg, emissions[i + 1..], DispatchInner(env, cfg, emissions[i], spent, path), path)
  {
    assert emissions[i..][0] == emissions[i] && emissions[i..][1..] == emissions[i + 1..];
  }

  lemma UnfoldFirst<W>(env: Env<W>, cfg: CascadeConfig, emissions: seq<FieldMap>, st: State<W>, path: seq<FieldMap>)
    requires emissions != []
    ensures RunEmissions(env, cfg, emissions, st, path) ==
      if st.budget == 0 then (st.Push(Synthetic(CascadeBudget(cfg.budget, |path|))), true)
      else
        var spent := st.(budget := st.budget - 1, emitted := st.emitted + 1);
        RunEmissions(env, cfg, emissions[1..], DispatchInner(env, cfg, emissions[0], spent, path), path)
  {
  }

  lemma NothingLeft<W>(env: Env<W>, cfg: CascadeConfig, st: State<W>, path: seq<FieldMap>)
    ensures RunMatches(env, cfg, [], st, path) == st
    ensures RunEmissions(env, cfg, [], st, path) == (st, false)
  {
  }

  // Accounting.

  /** What every stretch of a dispatch keeps: the visited set, the past, and the sum of budget and emissions. */
  ghost predicate Keeps<W>(st: State<W>, r: State<W>) {
    && r.visited == st.visited
    && st.outcomes <= r.outcomes
    && st.log <= r.log
    && r.emitted - st.emitted == st.budget - r.budget
  }

  lemma {:induction false} DispatchKeeps<W>(env: Env<W>, cfg: CascadeConfig, event: FieldMap, st: State<W>,
      path: seq<FieldMap>)
    ensures var r := DispatchInner(env, cfg, event, st, path);
      Keeps(st, r) && |r.log| - |st.log| == 1 + st.budget - r.budget
    decreases st.budget, 2, 0
  {
    var sig := env.signature(event);
    if |path| < cfg.maxDepth && sig !in st.visited {
      var matches := env.matching(event);
      var entered := st.Enter(path, event, Runs).(visited := st.visited + {sig}, matched := st.matched + |matches|);
      MatchesKeep(env, cfg, matches, entered, path + [event]);
      assert entered.visited - {sig} == st.visited;
    }
  }

  lemma {:induction false} MatchesKeep<W>(env: Env<W>, cfg: CascadeConfig, matches: seq<ClauseMatch>, st: State<W>,
      path: seq<FieldMap>)
    ensures var r := RunMatches(env, cfg, matches, st, path);
      Keeps(st, r) && |r.log| - |st.log| == st.budget - r.budget
    decreases st.budget, 1, |matches|
  {
    if matches != [] {
      var emissions := Execute(env, matches[0], st.world).2;
      var executed := Executed(env, matches[0], st);
      EmissionsKeep(env, cfg, emissions, executed, path);
      var (r, exhausted) := RunEmissions(env, cfg, emissions, executed, path);
      if !exhausted {
        MatchesKeep(env, cfg, matches[1..], r, path);
      }
    }
  }

  lemma {:induction false} EmissionsKeep<W>(env: Env<W>, cfg: CascadeConfig, emissions: seq<FieldMap>, st: State<W>,
      path: seq<FieldMap>)
    ensures var r := RunEmissions(env, cfg, emissions, st, path).0;
      Keeps(st, r) && |r.log| - |st.log| == st.budget - r.budget
    decreases st.budget, 0, |emissions|
  {
    if emissions != [] && st.budget > 0 {
      var spent := st.(budget := st.budget - 1, emitted := st.emitted + 1);
      DispatchKeeps(env, cfg, emissions[0], spent, path);
      EmissionsKeep(env, cfg, emissions[1..], DispatchInner(env, cfg, emissions[0], spent, path), path);
    }
  }

  // How many outcomes there can be.

  lemma Distribute(k: nat, a: int, b: int)
    ensures k * (a + b) == k * a + k * b
  {
  }

  /** Each call of `dispatch_inner` adds at most one outcome per script and one more. */
  lemma {:induction false} DispatchBounded<W>(env: Env<W>, cfg: CascadeConfig, event: FieldMap, st: State<W>,
      path: seq<FieldMap>, scripts: nat)
    requires Faithful(env, scripts)
    ensures var r := DispatchInner(env, cfg, event, st, path);
      |r.outcomes| - |st.outcomes| <= (scripts + 1) * (|r.log| - |st.log|)
    decreases st.budget, 2, 0
  {
    var sig := env.signature(event);
    if |path| < cfg.maxDepth && sig !in st.visited {
      var matches := env.matching(event);
      var entered := st.Enter(path, event, Runs).(visited := st.visited + {sig}, matched := st.matched + |matches|);
      RunMatchesBounded(env, cfg, matches, entered, path + [event], scripts);
      var r := RunMatches(env, cfg, matches, entered, path + [event]);
      Distribute(scripts + 1, 1, |r.log| - |entered.log|);
    }
  }

  lemma {:induction false} RunMatchesBounded<W>(env: Env<W>, cfg: CascadeConfig, matches: seq<ClauseMatch>,
      st: State<W>, path: seq<FieldMap>, scripts: nat)
    requires Faithful(env, scripts)
    ensures var r := RunMatches(env, cfg, matches, st, path);
      |r.outcomes| - |st.outcomes| <= |matches| + 1 + (scripts + 1) * (|r.log| - |st.log|)
    decreases st.budget, 1, |matches|
  {
    if matches != [] {
      var emissions := Execute(env, matches[0], st.world).2;
      var executed := Executed(env, matches[0], st);
      RunEmissionsBounded(env, cfg, emissions, executed, path, scripts);
      var (r, exhausted) := RunEmissions(env, cfg, emissions, executed, path);
      if !exhausted {
        RunMatchesBounded(env, cfg, matches[1..], r, path, scripts);
        var end := RunMatches(env, cfg, matches[1..], r, path);
        Distribute(scripts + 1, |r.log| - |st.log|, |end.log| - |r.log|);
      }
    }
  }

  lemma {:induction false} RunEmissionsBounded<W>(env: Env<W>, cfg: CascadeConfig, emissions: seq<FieldMap>,
      st: State<W>, path: seq<FieldMap>, scripts: nat)
    requires Faithful(env, scripts)
    ensures var (r, exhausted) := RunEmissions(env, cfg, emissions, st, path);
      |r.outcomes| - |st.outcomes| <= (if exhausted then 1 else 0) + (scripts + 1) * (|r.log| - |st.log|)
    decreases st.budget, 0, |emissions|
  {
    if emissions != [] && st.budget > 0 {
      hide RunEmissions, DispatchInner, Faithful;
      UnfoldFirst(env, cfg, emissions, st, path);
      var spent := st.(budget := st.budget - 1, emitted := st.emitted + 1);
      var first := DispatchInner(env, cfg, emissions[0], spent, path);
      DispatchBounded(env, cfg, emissions[0], spent, path, scripts);
      RunEmissionsBounded(env, cfg, emissions[1..], first, path, scripts);
      var r := RunEmissions(env, cfg, emissions[1..], first, path).0;
      Distribute(scripts + 1, |first.log| - |st.log|, |r.log| - |first.log|);
    }
  }

  // What is recorded.

  /** The refusals among the outcomes, in order. */
  function Refusals(outcomes: seq<ClauseOutcome>): seq<ClauseError> {
    if outcomes == [] then []
    else
      var o := outcomes[|outcomes| - 1];
      Refusals(outcomes[..|outcomes| - 1]) + if IsDepth(o) || IsCycle(o) then [o.result.error] else []
  }

  /** The refusals that the entries call for, in order. */
  function RefusedEntries(cfg: CascadeConfig, log: seq<Entry>): seq<ClauseError> {
    if log == [] then []
    else
      var e := log[|log| - 1];
      RefusedEntries(cfg, log[..|log| - 1]) +
      match e.verdict
      case TooDeep => [CascadeDepth(|e.path|, cfg.maxDepth)]
      case Cycle => [CascadeCycle(|e.path|)]
      case Runs => []
  }

  /** The latest body error of each script path among the outcomes. */
  function BodyErrors(outcomes: seq<ClauseOutcome>): map<string, ClauseError> {
    if outcomes == [] then map[]
    else
      var o := outcomes[|outcomes| - 1];
      var earlier := BodyErrors(outcomes[..|outcomes| - 1]);
      if o.result.Err? && o.result.error.Body? then earlier[o.scriptPath := o.result.error] else earlier
  }

  /** How many clauses were matched by the events that ran. */
  function MatchedEntries<W>(env: Env<W>, log: seq<Entry>): nat {
    if log == [] then 0
    else
      var e := log[|log| - 1];
      MatchedEntries(env, log[..|log| - 1]) + if e.verdict == Runs then |env.matching(e.event)| else 0
  }

  /** The deepest nesting among the entries, if that is more than `floor`. */
  function Deepest(floor: nat, log: seq<Entry>): nat {
    if log == [] then floor
    else
      var earlier, depth := Deepest(floor, log[..|log| - 1]), |log[|log| - 1].path|;
      if earlier < depth then depth else earlier
  }

  /** The outcomes report the refused entries; the statistics tell of entries and body errors since `base`. */
  ghost predicate Recorded<W>(env: Env<W>, cfg: CascadeConfig, base: State<W>, st: State<W>) {
    && Refusals(st.outcomes) == RefusedEntries(cfg, st.log)
    && st.lastError == base.lastError + BodyErrors(st.outcomes)
    && st.matched == base.matched + MatchedEntries(env, st.log)
    && st.depthMax == Deepest(base.depthMax, st.log)
  }

  lemma PushRecorded(outcomes: seq<ClauseOutcome>, o: ClauseOutcome)
    ensures Refusals(outcomes + [o]) == Refusals(outcomes) + (if IsDepth(o) || IsCycle(o) then [o.result.error] else [])
    ensures BodyErrors(outcomes + [o]) ==
      if o.result.Err? && o.result.error.Body? then BodyErrors(outcomes)[o.scriptPath := o.result.error]
      else BodyErrors(outcomes)
  {
    assert (outcomes + [o])[..|outcomes|] == outcomes;
  }

  lemma EnterRecorded<W>(env: Env<W>, cfg: CascadeConfig, floor: nat, log: seq<Entry>, e: Entry)
    ensures RefusedEntries(cfg, log + [e]) == RefusedEntries(cfg, log) +
      match e.verdict
      case TooDeep => [CascadeDepth(|e.path|, cfg.maxDepth)]
      case Cycle => [CascadeCycle(|e.path|)]
      case Runs => []
    ensures MatchedEntries(env, log + [e]) ==
      MatchedEntries(env, log) + (if e.verdict == Runs then |env.matching(e.event)| else 0)
    ensures Deepest(floor, log + [e]) == if Deepest(floor, log) < |e.path| then |e.path| else Deepest(floor, log)
  {
    assert (log + [e])[..|log|] == log;
  }

  lemma TooDeepRecorded<W>(env: Env<W>, cfg: CascadeConfig, base: State<W>, st: State<W>, path: seq<FieldMap>,
      event: FieldMap)
    requires Recorded(env, cfg, base, st)
    ensures Recorded(env, cfg, base, st.Enter(path, event, TooDeep).Push(Synthetic(CascadeDepth(|path|, cfg.maxDepth))))
  {
    PushRecorded(st.outcomes, Synthetic(CascadeDepth(|path|, cfg.maxDepth)));
    EnterRecorded(env, cfg, base.depthMax, st.log, Entry(path, event, st.visited, TooDeep));
  }

  lemma CycleRecorded<W>(env: Env<W>, cfg: CascadeConfig, base: State<W>, st: State<W>, path: seq<FieldMap>,
      event: FieldMap)
    requires Recorded(env, cfg, base, st)
    ensures Recorded(env, cfg, base, st.Enter(path, event, Cycle).Push(Synthetic(CascadeCycle(|path|))))
  {
    PushRecorded(st.outcomes, Synthetic(CascadeCycle(|path|)));
    EnterRecorded(env, cfg, base.depthMax, st.log, Entry(path, event, st.visited, Cycle));
  }

  lemma EntryRecorded<W>(env: Env<W>, cfg: CascadeConfig, base: State<W>, st: State<W>, path: seq<FieldMap>,
      event: FieldMap, visited: set<EventSig>)
    requires Recorded(env, cfg, base, st)
    ensures Recorded(env, cfg, base,
      st.Enter(path, event, Runs).(visited := visited, matched := st.matched + |env.matching(event)|))
  {
    EnterRecorded(env, cfg, base.depthMax, st.log, Entry(path, event, st.visited, Runs));
  }

  lemma VisitedUnrecorded<W>(env: Env<W>, cfg: CascadeConfig, base: State<W>, st: State<W>, visited: set<EventSig>)
    requires Recorded(env, cfg, base, st)
    ensures Recorded(env, cfg, base, st.(visited := visited))
  {
  }

  lemma {:induction false} DispatchRecords<W>(env: Env<W>, cfg: CascadeConfig, event: FieldMap, st: State<W>,
      path: seq<FieldMap>, base: State<W>)
    requires Recorded(env, cfg, base, st)
    ensures Recorded(env, cfg, base, DispatchInner(env, cfg, event, st, path))
    decreases st.budget, 2, 0
  {
    var sig := env.signature(event);
    if |path| >= cfg.maxDepth {
      TooDeepRecorded(env, cfg, base, st, path, event);
    } else if sig in st.visited {
      CycleRecorded(env, cfg, base, st, path, event);
    } else {
      var matches := env.matching(event);
      var entered := st.Enter(path, event, Runs).(visited := st.visited + {sig}, matched := st.matched + |matches|);
      EntryRecorded(env, cfg, base, st, path, event, st.visited + {sig});
      MatchesRecord(env, cfg, matches, entered, path + [event], base);
      var r := RunMatches(env, cfg, matches, entered, path + [event]);
      VisitedUnrecorded(env, cfg, base, r, r.visited - {sig});
      UnfoldDispatch(env, cfg, event, st, path, matches, entered);
    }
  }

  lemma ExecutedRecorded<W>(env: Env<W>, cfg: CascadeConfig, base: State<W>, st: State<W>, m: ClauseMatch)
    requires Recorded(env, cfg, base, st)
    ensures Recorded(env, cfg, base, Executed(env, m, st))
  {
    hide Refusals, RefusedEntries, BodyErrors, MatchedEntries, Deepest;
    PushRecorded(st.outcomes, Execute(env, m, st.world).1);
  }

  lemma ExhaustedRecorded<W>(env: Env<W>, cfg: CascadeConfig, base: State<W>, st: State<W>, depth: nat)
    requires Recorded(env, cfg, base, st)
    ensures Recorded(env, cfg, base, st.Push(Synthetic(CascadeBudget(cfg.budget, depth))))
  {
    hide Refusals, RefusedEntries, BodyErrors, MatchedEntries, Deepest;
    PushRecorded(st.outcomes, Synthetic(CascadeBudget(cfg.budget, depth)));
  }

  lemma SpentRecorded<W>(env: Env<W>, cfg: CascadeConfig, base: State<W>, st: State<W>, budget: nat, emitted: nat)
    requires Recorded(env, cfg, base, st)
    ensures Recorded(env, cfg, base, st.(budget := budget, emitted := emitted))
  {
    hide Refusals, RefusedEntries, BodyErrors, MatchedEntries, Deepest;
  }

  lemma {:induction false} MatchesRecord<W>(env: Env<W>, cfg: CascadeConfig, matches: seq<ClauseMatch>, st: State<W>,
      path: seq<FieldMap>, base: State<W>)
    requires Recorded(env, cfg, base, st)
    ensures Recorded(env, cfg, base, RunMatches(env, cfg, matches, st, path))
    decreases st.budget, 1, |matches|
  {
    if matches == [] {
      assert RunMatches(env, cfg, matches, st, path) == st;
    } else {
      hide Recorded, RunMatches, RunEmissions;
      var emissions := Execute(env, matches[0], st.world).2;
      var executed := Executed(env, matches[0], st);
      ExecutedRecorded(env, cfg, base, st, matches[0]);
      EmissionsRecord(env, cfg, emissions, executed, path, base);
      UnfoldMatches(env, cfg, matches, st, path);
      var (r, exhausted) := RunEmissions(env, cfg, emissions, executed, path);
      if !exhausted {
        MatchesRecord(env, cfg, matches[1..], r, path, base);
      }
    }
  }

  lemma {:induction false} EmissionsRecord<W>(env: Env<W>, cfg: CascadeConfig, emissions: seq<FieldMap>,
      st: State<W>, path: seq<FieldMap>, base: State<W>)
    requires Recorded(env, cfg, base, st)
    ensures Recorded(env, cfg, base, RunEmissions(env, cfg, emissions, st, path).0)
    decreases st.budget, 0, |emissions|
  {
    if emissions == [] {
      assert RunEmissions(env, cfg, emissions, st, path).0 == st;
    } else {
      hide Recorded, RunEmissions, DispatchInner;
      UnfoldFirst(env, cfg, emissions, st, path);
      if st.budget == 0 {
        ExhaustedRecorded(env, cfg, base, st, |path|);
      } else {
        var spent := st.(budget := st.budget - 1, emitted := st.emitted + 1);
        SpentRecorded(env, cfg, base, st, st.budget - 1, st.emitted + 1);
        DispatchRecords(env, cfg, emissions[0], spent, path, base);
        EmissionsRecord(env, cfg, emissions[1..], DispatchInner(env, cfg, emissions[0], spent, path), path, base);
      }
    }
  }

  // The budget outcomes.

  /** The depths that the budget outcomes report, in order. */
  function BudgetDepths(outcomes: seq<ClauseOutcome>): seq<nat> {
    if outcomes == [] then []
    else
      var o := outcomes[|outcomes| - 1];
      BudgetDepths(outcomes[..|outcomes| - 1]) + if IsBudget(o) then [o.result.error.depth] else []
  }

  /** Strictly falling depths from `most` at the most down to `least` at the least. */
  ghost predicate Descends(depths: seq<nat>, least: nat, most: nat) {
    && (forall i | 0 <= i < |depths| :: least <= depths[i] <= most)
    && (forall i, j | 0 <= i < j < |depths| :: depths[i] > depths[j])
  }

  lemma PushBudget(outcomes: seq<ClauseOutcome>, o: ClauseOutcome)
    ensures BudgetDepths(outcomes + [o]) == BudgetDepths(outcomes) + if IsBudget(o) then [o.result.error.depth] else []
  {
    assert (outcomes + [o])[..|outcomes|] == outcomes;
  }

  /** From `st` to `r` the budget outcomes at `depths` were added: none unless the budget is spent. */
  ghost predicate Exhausts<W>(st: State<W>, r: State<W>, depths: seq<nat>, least: nat, most: nat) {
    && BudgetDepths(r.outcomes) == BudgetDepths(st.outcomes) + depths
    && Descends(depths, least, most)
    && (depths != [] ==> r.budget == 0)
  }

  /** Two stretches, the second at no deeper a level than the first left off. */
  lemma ExhaustsThen<W>(st: State<W>, mid: State<W>, r: State<W>, a: seq<nat>, b: seq<nat>, least: nat, most: nat)
    requires Exhausts(st, mid, a, least + 1, most) && Exhausts(mid, r, b, least, most) && r.budget <= mid.budget
    requires mid.budget == 0 ==> b == [] || b == [least]
    ensures Exhausts(st, r, a + b, least, most)
  {
    hide BudgetDepths;
    ConcatThree(BudgetDepths(st.outcomes), a, b);
    if a == [] {
      assert a + b == b;
    } else {
      DescendsThen(a, b, least, most);
    }
  }

  lemma DescendsThen(a: seq<nat>, b: seq<nat>, least: nat, most: nat)
    requires a != [] && Descends(a, least + 1, most) && (b == [] || b == [least])
    ensures Descends(a + b, least, most)
  {
    assert least < a[0] <= most;
    forall i, j | 0 <= i < j < |a + b| ensures (a + b)[i] > (a + b)[j] {
      if j == |a| { assert (a + b)[j] == least && a[i] > least; }
    }
  }

  lemma ExecutedKeepsBudget<W>(env: Env<W>, st: State<W>, m: ClauseMatch)
    ensures var executed := Executed(env, m, st);
      executed.budget == st.budget && BudgetDepths(executed.outcomes) == BudgetDepths(st.outcomes)
  {
    hide BudgetDepths;
    PushBudget(st.outcomes, Execute(env, m, st.world).1);
  }

  lemma {:induction false} DispatchExhausts<W>(env: Env<W>, cfg: CascadeConfig, event: FieldMap, st: State<W>,
      path: seq<FieldMap>)
    returns (depths: seq<nat>)
    requires |path| <= cfg.maxDepth
    ensures Exhausts(st, DispatchInner(env, cfg, event, st, path), depths, |path| + 1, cfg.maxDepth)
    decreases st.budget, 2, 0
  {
    hide RunMatches, BudgetDepths;
    depths := [];
    var sig := env.signature(event);
    if |path| >= cfg.maxDepth {
      PushBudget(st.outcomes, Synthetic(CascadeDepth(|path|, cfg.maxDepth)));
    } else if sig in st.visited {
      PushBudget(st.outcomes, Synthetic(CascadeCycle(|path|)));
    } else {
      var matches := env.matching(event);
      var entered := st.Enter(path, event, Runs).(visited := st.visited + {sig}, matched := st.matched + |matches|);
      depths := MatchesExhaust(env, cfg, matches, entered, path + [event]);
    }
  }

  lemma {:induction false} MatchesExhaust<W>(env: Env<W>, cfg: CascadeConfig, matches: seq<ClauseMatch>,
      st: State<W>, path: seq<FieldMap>)
    returns (depths: seq<nat>)
    requires |path| <= cfg.maxDepth
    ensures Exhausts(st, RunMatches(env, cfg, matches, st, path), depths, |path|, cfg.maxDepth)
    ensures st.budget == 0 ==> depths == [] || depths == [|path|]
    decreases st.budget, 1, |matches|
  {
    if matches == [] {
      depths := [];
      assert RunMatches(env, cfg, matches, st, path) == st;
    } else {
      hide RunMatches, RunEmissions, BudgetDepths, Descends;
      var emissions := Execute(env, matches[0], st.world).2;
      var executed := Executed(env, matches[0], st);
      ExecutedKeepsBudget(env, st, matches[0]);
      hide Executed, Execute;
      UnfoldMatches(env, cfg, matches, st, path);
      var (r, exhausted) := RunEmissions(env, cfg, emissions, executed, path);
      depths := EmissionsExhaust(env, cfg, emissions, executed, path);
      if !exhausted {
        var later := MatchesExhaust(env, cfg, matches[1..], r, path);
        ExhaustsThen(executed, r, RunMatches(env, cfg, matches[1..], r, path), depths, later, |path|, cfg.maxDepth);
        depths := depths + later;
      }
    }
  }

  lemma {:induction false} EmissionsExhaust<W>(env: Env<W>, cfg: CascadeConfig, emissions: seq<FieldMap>,
      st: State<W>, path: seq<FieldMap>)
    returns (depths: seq<nat>)
    requires |path| <= cfg.maxDepth
    ensures var (r, exhausted) := RunEmissions(env, cfg, emissions, st, path);
      && Exhausts(st, r, depths, if exhausted then |path| else |path| + 1, cfg.maxDepth)
      && (st.budget == 0 ==> depths == if exhausted then [|path|] else [])
    decreases st.budget, 0, |emissions|
  {
    depths := [];
    if emissions == [] {
      assert RunEmissions(env, cfg, emissions, st, path) == (st, false);
    } else {
      hide RunEmissions, DispatchInner, BudgetDepths;
      UnfoldFirst(env, cfg, emissions, st, path);
      if st.budget == 0 {
        PushBudget(st.outcomes, Synthetic(CascadeBudget(cfg.budget, |path|)));
        depths := [|path|];
      } else {
        hide Descends;
        var spent := st.(budget := st.budget - 1, emitted := st.emitted + 1);
        var mid := DispatchInner(env, cfg, emissions[0], spent, path);
        var first := DispatchExhausts(env, cfg, emissions[0], spent, path);
        var rest := EmissionsExhaust(env, cfg, emissions[1..], mid, path);
        EmissionsExhaustStep(spent, mid, RunEmissions(env, cfg, emissions[1..], mid, path), first, rest, |path|,
          cfg.maxDepth);
        depths := first + rest;
      }
    }
  }

  lemma EmissionsExhaustStep<W>(st: State<W>, mid: State<W>, end: (State<W>, bool), a: seq<nat>, b: seq<nat>,
      depth: nat, most: nat)
    requires Exhausts(st, mid, a, depth + 1, most) && end.0.budget <= mid.budget
    requires Exhausts(mid, end.0, b, if end.1 then depth else depth + 1, most)
    requires mid.budget == 0 ==> b == if end.1 then [depth] else []
    ensures Exhausts(st, end.0, a + b, if end.1 then depth else depth + 1, most)
  {
    hide BudgetDepths, Descends;
    if end.1 {
      ExhaustsThen(st, mid, end.0, a, b, depth, most);
    } else {
      ConcatThree(BudgetDepths(st.outcomes), a, b);
      assert a + b == if a == [] then b else a;
    }
  }

  lemma {:induction false} DescentIsShort(depths: seq<nat>, most: nat)
    requires Descends(depths, 1, most)
    ensures |depths| <= most
  {
    if depths != [] {
      assert most >= depths[0] >= 1;
      forall i | 0 <= i < |depths| - 1 ensures depths[1..][i] <= most - 1 { assert depths[0] > depths[i + 1]; }
      DescentIsShort(depths[1..], most - 1);
    }
  }

  // The discipline of the visited stack.

  /** The signatures of the active events. */
  ghost function Sigs<W>(env: Env<W>, path: seq<FieldMap>): set<EventSig> {
    set i | 0 <= i < |path| :: env.signature(path[i])
  }

  ghost predicate DistinctEvents(path: seq<FieldMap>) {
    forall i, j | 0 <= i < j < |path| :: path[i] != path[j]
  }

  /** A call as the discipline wants it. */
  ghost predicate Disciplined<W>(env: Env<W>, cfg: CascadeConfig, e: Entry) {
    && |e.path| <= cfg.maxDepth
    && DistinctEvents(e.path)
    && e.visited == Sigs(env, e.path)
    && (e.verdict == TooDeep <==> |e.path| == cfg.maxDepth)
    && (e.verdict == Cycle <==> |e.path| < cfg.maxDepth && e.event in e.path)
    && (e.verdict == Runs ==> DistinctEvents(e.path + [e.event]))
  }

  ghost predicate AllDisciplined<W>(env: Env<W>, cfg: CascadeConfig, log: seq<Entry>, from: nat) {
    forall i | from <= i < |log| :: Disciplined(env, cfg, log[i])
  }

  /** Signatures stand for the events themselves. */
  lemma SigsContain<W>(env: Env<W>, path: seq<FieldMap>, event: FieldMap, scripts: nat)
    requires Faithful(env, scripts)
    ensures env.signature(event) in Sigs(env, path) <==> event in path
  {
  }

  lemma SigsPush<W>(env: Env<W>, path: seq<FieldMap>, event: FieldMap)
    ensures Sigs(env, path + [event]) == Sigs(env, path) + {env.signature(event)}
  {
    var longer := path + [event];
    forall s | s in Sigs(env, path) + {env.signature(event)} ensures s in Sigs(env, longer) {
      if s in Sigs(env, path) {
        var i :| 0 <= i < |path| && env.signature(path[i]) == s;
        assert longer[i] == path[i];
      } else {
        assert longer[|path|] == event;
      }
    }
  }

  /** The visited set has as many members as there are active events. */
  lemma {:induction false} SigsSize<W>(env: Env<W>, path: seq<FieldMap>, scripts: nat)
    requires Faithful(env, scripts) && DistinctEvents(path)
    ensures |Sigs(env, path)| == |path|
  {
    if path == [] {
      assert Sigs(env, path) == {};
    } else {
      var front, last := path[..|path| - 1], path[|path| - 1];
      assert path == front + [last];
      SigsSize(env, front, scripts);
      SigsPush(env, front, last);
      SigsContain(env, front, last, scripts);
    }
  }

  /** An entry followed by disciplined ones. */
  lemma FirstEntry<W>(env: Env<W>, cfg: CascadeConfig, before: seq<Entry>, e: Entry, log: seq<Entry>)
    requires Disciplined(env, cfg, e) && before + [e] <= log && AllDisciplined(env, cfg, log, |before| + 1)
    ensures AllDisciplined(env, cfg, log, |before|)
  {
    assert log[|before|] == (before + [e])[|before|] == e;
  }

  lemma {:induction false} DispatchDisciplined<W>(env: Env<W>, cfg: CascadeConfig, event: FieldMap, st: State<W>,
      path: seq<FieldMap>, scripts: nat)
    requires Faithful(env, scripts) && |path| <= cfg.maxDepth && DistinctEvents(path) && st.visited == Sigs(env, path)
    ensures AllDisciplined(env, cfg, DispatchInner(env, cfg, event, st, path).log, |st.log|)
    decreases st.budget, 2, 0
  {
    hide RunMatches, Sigs;
    var sig := env.signature(event);
    SigsContain(env, path, event, scripts);
    if |path| < cfg.maxDepth && sig !in st.visited {
      hide DispatchInner, AllDisciplined;
      var matches := env.matching(event);
      var entered := st.Enter(path, event, Runs).(visited := st.visited + {sig}, matched := st.matched + |matches|);
      UnfoldDispatch(env, cfg, event, st, path, matches, entered);
      SigsPush(env, path, event);
      MatchesDisciplined(env, cfg, matches, entered, path + [event], scripts);
      MatchesKeep(env, cfg, matches, entered, path + [event]);
      var r := RunMatches(env, cfg, matches, entered, path + [event]);
      FirstEntry(env, cfg, st.log, Entry(path, event, st.visited, Runs), r.log);
    }
  }

  lemma {:induction false} MatchesDisciplined<W>(env: Env<W>, cfg: CascadeConfig, matches: seq<ClauseMatch>,
      st: State<W>, path: seq<FieldMap>, scripts: nat)
    requires Faithful(env, scripts) && |path| <= cfg.maxDepth && DistinctEvents(path) && st.visited == Sigs(env, path)
    ensures AllDisciplined(env, cfg, RunMatches(env, cfg, matches, st, path).log, |st.log|)
    decreases st.budget, 1, |matches|
  {
    if matches != [] {
      hide RunMatches, RunEmissions, Sigs;
      UnfoldMatches(env, cfg, matches, st, path);
      var emissions := Execute(env, matches[0], st.world).2;
      var executed := Executed(env, matches[0], st);
      EmissionsDisciplined(env, cfg, emissions, executed, path, scripts);
      EmissionsKeep(env, cfg, emissions, executed, path);
      var (r, exhausted) := RunEmissions(env, cfg, emissions, executed, path);
      if !exhausted {
        MatchesDisciplined(env, cfg, matches[1..], r, path, scripts);
        MatchesKeep(env, cfg, matches[1..], r, path);
      }
    }
  }

  lemma {:induction false} EmissionsDisciplined<W>(env: Env<W>, cfg: CascadeConfig, emissions: seq<FieldMap>,
      st: State<W>, path: seq<FieldMap>, scripts: nat)
    requires Faithful(env, scripts) && |path| <= cfg.maxDepth && DistinctEvents(path) && st.visited == Sigs(env, path)
    ensures AllDisciplined(env, cfg, RunEmissions(env, cfg, emissions, st, path).0.log, |st.log|)
    decreases st.budget, 0, |emissions|
  {
    if emissions != [] && st.budget > 0 {
      hide RunEmissions, DispatchInner, Sigs;
      UnfoldFirst(env, cfg, emissions, st, path);
      var spent := st.(budget := st.budget - 1, emitted := st.emitted + 1);
      var first := DispatchInner(env, cfg, emissions[0], spent, path);
      DispatchDisciplined(env, cfg, emissions[0], spent, path, scripts);
      DispatchKeeps(env, cfg, emissions[0], spent, path);
      EmissionsDisciplined(env, cfg, emissions[1..], first, path, scripts);
      EmissionsKeep(env, cfg, emissions[1..], first, path);
    }
  }

  // Dispatch without limits: depth first, each emission completed before the next, cycles by comparing events.
  // `fuel` bounds only the nesting that the answer may need.

  datatype Run<W> = Run(world: W, outcomes: seq<ClauseOutcome>, emissions: nat)

  /** What the outcome of a clause says of its body: the events it emitted, or its error. */
  function Report(result: BodyResult): Result<seq<FieldMap>, ClauseError> {
    match result
    case Ok(events) => Ok(events)
    case Err(message) => Err(Body(message))
  }

  /** All the events that a body emitted, in order; none if it raised. */
  function Emitted(result: BodyResult): seq<FieldMap> {
    if result.Ok? then result.value else []
  }

  function Unlimited<W>(env: Env<W>, event: FieldMap, world: W, path: seq<FieldMap>, fuel: nat): Option<Run<W>>
    decreases fuel, 0, 0
  {
    if fuel == 0 then None
    else if event in path then Some(Run(world, [Synthetic(CascadeCycle(|path|))], 0))
    else UnlimitedMatches(env, env.matching(event), world, path + [event], fuel - 1)
  }

  function UnlimitedMatches<W>(env: Env<W>, matches: seq<ClauseMatch>, world: W, path: seq<FieldMap>,
      fuel: nat): Option<Run<W>>
    decreases fuel, 2, |matches|
  {
    if matches == [] then Some(Run(world, [], 0))
    else
      var m := matches[0];
      var (w, result) := env.lua(world, m.clause, m.bindings);
      var outcome := ClauseOutcome(m.script.sourcePath, m.clause, m.bindings, Report(result));
      match UnlimitedEmissions(env, Emitted(result), w, path, fuel)
      case None => None
      case Some(first) =>
        match UnlimitedMatches(env, matches[1..], first.world, path, fuel)
        case None => None
        case Some(rest) =>
          Some(Run(rest.world, [outcome] + first.outcomes + rest.outcomes, first.emissions + rest.emissions))
  }

  function UnlimitedEmissions<W>(env: Env<W>, emissions: seq<FieldMap>, world: W, path: seq<FieldMap>,
      fuel: nat): Option<Run<W>>
    decreases fuel, 1, |emissions|
  {
    if emissions == [] then Some(Run(world, [], 0))
    else
      match Unlimited(env, emissions[0], world, path, fuel)
      case None => None
      case Some(first) =>
        match UnlimitedEmissions(env, emissions[1..], first.world, path, fuel)
        case None => None
        case Some(rest) =>
          Some(Run(rest.world, first.outcomes + rest.outcomes, 1 + first.emissions + rest.emissions))
  }

  /** No limit made itself felt. */
  ghost predicate Clean(outcomes: seq<ClauseOutcome>) {
    forall i | 0 <= i < |outcomes| :: !IsDepth(outcomes[i]) && !IsBudget(outcomes[i])
  }

  ghost predicate WithinBudget<W>(u: Option<Run<W>>, budget: nat) {
    u.Some? && u.value.emissions <= budget
  }

  /** The stretch from `st` to `r` is the unlimited run `u` if that fits the limits, and shows a limit if not. */
  ghost predicate Agrees<W>(st: State<W>, r: State<W>, u: Option<Run<W>>) {
    if WithinBudget(u, st.budget)
    then r.outcomes == st.outcomes + u.value.outcomes && Clean(u.value.outcomes)
      && r.world == u.value.world && r.budget == st.budget - u.value.emissions
    else st.outcomes <= r.outcomes && !Clean(r.outcomes[|st.outcomes|..])
  }

  lemma CleanConcat(a: seq<ClauseOutcome>, b: seq<ClauseOutcome>)
    ensures Clean(a + b) <==> Clean(a) && Clean(b)
  {
    if Clean(a + b) {
      assert forall i | 0 <= i < |a| :: a[i] == (a + b)[i];
      assert forall i | 0 <= i < |b| :: b[i] == (a + b)[|a| + i];
    }
  }

  /** A limit that showed in a first stretch shows in the whole. */
  lemma UncleanStays(a: seq<ClauseOutcome>, b: seq<ClauseOutcome>, c: seq<ClauseOutcome>)
    requires a <= b <= c && (!Clean(b[|a|..]) || !Clean(c[|b|..]))
    ensures !Clean(c[|a|..])
  {
    assert c[|a|..] == b[|a|..] + c[|b|..];
    CleanConcat(b[|a|..], c[|b|..]);
  }

  /** One unlimited run after another. */
  function Then<W>(a: Option<Run<W>>, b: Option<Run<W>>): Option<Run<W>> {
    if a.Some? && b.Some?
    then Some(Run(b.value.world, a.value.outcomes + b.value.outcomes, a.value.emissions + b.value.emissions))
    else None
  }

  /** Stretches that agree with their unlimited runs agree together. */
  lemma AgreesThen<W>(st: State<W>, mid: State<W>, end: State<W>, a: Option<Run<W>>, b: Option<Run<W>>)
    requires Agrees(st, mid, a) && st.outcomes <= mid.outcomes <= end.outcomes
    requires WithinBudget(a, st.budget) ==> Agrees(mid, end, b)
    ensures Agrees(st, end, Then(a, b))
  {
    if !WithinBudget(a, st.budget) || !WithinBudget(b, mid.budget) {
      UncleanStays(st.outcomes, mid.outcomes, end.outcomes);
    } else {
      CleanConcat(a.value.outcomes, b.value.outcomes);
      assert end.outcomes == st.outcomes + (a.value.outcomes + b.value.outcomes);
    }
  }

  /** A body's outcome, the run of its emissions, the run of the remaining matches. */
  lemma MatchStepAgrees<W>(st: State<W>, executed: State<W>, outcome: ClauseOutcome, r: State<W>, end: State<W>,
      first: Option<Run<W>>, rest: Option<Run<W>>)
    requires !IsDepth(outcome) && !IsBudget(outcome)
    requires executed.outcomes == st.outcomes + [outcome] && executed.budget == st.budget
    requires Agrees(executed, r, first) && executed.outcomes <= r.outcomes <= end.outcomes
    requires WithinBudget(first, st.budget) ==> Agrees(r, end, rest)
    ensures Agrees(st, end, Then(Some(Run(executed.world, [outcome], 0)), Then(first, rest)))
  {
    AgreesThen(executed, r, end, first, rest);
    AgreesThen(st, executed, end, Some(Run(executed.world, [outcome], 0)), Then(first, rest));
  }

  /** One unit of budget, the run of the emitted event, the run of the remaining emissions. */
  lemma EmissionStepAgrees<W>(st: State<W>, spent: State<W>, r: State<W>, end: State<W>, exhausted: bool,
      first: Option<Run<W>>, rest: Option<Run<W>>)
    requires spent.outcomes == st.outcomes && spent.budget == st.budget - 1
    requires Agrees(spent, r, first) && st.outcomes <= r.outcomes <= end.outcomes
    requires WithinBudget(first, spent.budget) ==> Agrees(r, end, rest) && (exhausted ==> !WithinBudget(rest, r.budget))
    ensures var u := Then(Some(Run(spent.world, [], 1)), Then(first, rest));
      Agrees(st, end, u) && (exhausted ==> !WithinBudget(u, st.budget))
  {
    AgreesThen(spent, r, end, first, rest);
    assert st.outcomes + [] == st.outcomes;
    AgreesThen(st, spent, end, Some(Run(spent.world, [], 1)), Then(first, rest));
  }

  /** Executing a clause runs its body once; the outcome and the events to dispatch are those of the body. */
  lemma ExecuteIsTheBody<W>(env: Env<W>, m: ClauseMatch, world: W)
    ensures var (w, result) := env.lua(world, m.clause, m.bindings);
      Execute(env, m, world) ==
        (w, ClauseOutcome(m.script.sourcePath, m.clause, m.bindings, Report(result)), Emitted(result))
  {
  }

  lemma UnlimitedMatchesStep<W>(env: Env<W>, matches: seq<ClauseMatch>, world: W, path: seq<FieldMap>, fuel: nat)
    requires matches != []
    ensures var (w, outcome, emissions) := Execute(env, matches[0], world);
      var first := UnlimitedEmissions(env, emissions, w, path, fuel);
      UnlimitedMatches(env, matches, world, path, fuel) ==
      Then(Some(Run(w, [outcome], 0)), Then(first,
        if first.Some? then UnlimitedMatches(env, matches[1..], first.value.world, path, fuel) else None))
  {
    ExecuteIsTheBody(env, matches[0], world);
    hide Execute;
    var (w, outcome, emissions) := Execute(env, matches[0], world);
    var first := UnlimitedEmissions(env, emissions, w, path, fuel);
    if first.Some? {
      var rest := UnlimitedMatches(env, matches[1..], first.value.world, path, fuel);
      if rest.Some? {
        assert [outcome] + (first.value.outcomes + rest.value.outcomes) ==
          [outcome] + first.value.outcomes + rest.value.outcomes;
      }
    }
  }

  lemma UnlimitedEmissionsStep<W>(env: Env<W>, emissions: seq<FieldMap>, world: W, path: seq<FieldMap>, fuel: nat)
    requires emissions != []
    ensures var first := Unlimited(env, emissions[0], world, path, fuel);
      UnlimitedEmissions(env, emissions, world, path, fuel) ==
      Then(Some(Run(world, [], 1)), Then(first,
        if first.Some? then UnlimitedEmissions(env, emissions[1..], first.value.world, path, fuel) else None))
  {
    hide Unlimited, UnlimitedMatches;
    var first := Unlimited(env, emissions[0], world, path, fuel);
    ThenOne(world, first,
      if first.Some? then UnlimitedEmissions(env, emissions[1..], first.value.world, path, fuel) else None);
    hide Then;
  }

  lemma ThenOne<W>(world: W, a: Option<Run<W>>, b: Option<Run<W>>)
    ensures Then(Some(Run(world, [], 1)), Then(a, b)) ==
      if a.Some? && b.Some?
      then Some(Run(b.value.world, a.value.outcomes + b.value.outcomes, 1 + a.value.emissions + b.value.emissions))
      else None
  {
    if a.Some? && b.Some? {
      assert [] + (a.value.outcomes + b.value.outcomes) == a.value.outcomes + b.value.outcomes;
    }
  }

  lemma LimitShows<W>(st: State<W>, o: ClauseOutcome)
    requires IsDepth(o) || IsBudget(o)
    ensures !Clean(st.Push(o).outcomes[|st.outcomes|..])
  {
    assert st.Push(o).outcomes[|st.outcomes|..] == [o];
    assert IsDepth([o][0]) || IsBudget([o][0]);
  }

  /** Neither the log nor the visited set matters to agreement. */
  lemma AgreesAround<W>(st: State<W>, entered: State<W>, r: State<W>, left: State<W>, u: Option<Run<W>>)
    requires Agrees(entered, r, u)
    requires entered.outcomes == st.outcomes && entered.budget == st.budget
    requires left.outcomes == r.outcomes && left.budget == r.budget && left.world == r.world
    ensures Agrees(st, left, u)
  {
  }

  lemma CycleAgrees<W>(st: State<W>, r: State<W>, o: ClauseOutcome)
    requires IsCycle(o) && r.outcomes == st.outcomes + [o] && r.world == st.world && r.budget == st.budget
    ensures Agrees(st, r, Some(Run(st.world, [o], 0)))
  {
  }

  lemma {:induction false} DispatchAgrees<W>(env: Env<W>, cfg: CascadeConfig, event: FieldMap, st: State<W>,
      path: seq<FieldMap>, scripts: nat)
    requires Faithful(env, scripts) && |path| <= cfg.maxDepth && st.visited == Sigs(env, path)
    ensures Agrees(st, DispatchInner(env, cfg, event, st, path),
      Unlimited(env, event, st.world, path, cfg.maxDepth - |path|))
    decreases st.budget, 2, 0
  {
    hide RunMatches, UnlimitedMatches, Sigs;
    var sig := env.signature(event);
    var r := DispatchInner(env, cfg, event, st, path);
    SigsContain(env, path, event, scripts);
    if |path| >= cfg.maxDepth {
      LimitShows(st, Synthetic(CascadeDepth(|path|, cfg.maxDepth)));
    } else if sig in st.visited {
      CycleAgrees(st, r, Synthetic(CascadeCycle(|path|)));
    } else {
      var matches := env.matching(event);
      var entered := st.Enter(path, event, Runs).(visited := st.visited + {sig}, matched := st.matched + |matches|);
      SigsPush(env, path, event);
      MatchesAgree(env, cfg, matches, entered, path + [event], scripts);
      AgreesAround(st, entered, RunMatches(env, cfg, matches, entered, path + [event]), r,
        UnlimitedMatches(env, matches, st.world, path + [event], cfg.maxDepth - |path| - 1));
    }
  }

  lemma {:induction false} MatchesAgree<W>(env: Env<W>, cfg: CascadeConfig, matches: seq<ClauseMatch>, st: State<W>,
      path: seq<FieldMap>, scripts: nat)
    requires Faithful(env, scripts) && |path| <= cfg.maxDepth && st.visited == Sigs(env, path)
    ensures Agrees(st, RunMatches(env, cfg, matches, st, path),
      UnlimitedMatches(env, matches, st.world, path, cfg.maxDepth - |path|))
    decreases st.budget, 1, |matches|
  {
    if matches == [] {
      assert st.outcomes + [] == st.outcomes;
    } else {
      var fuel := cfg.maxDepth - |path|;
      var (w, outcome, emissions) := Execute(env, matches[0], st.world);
      var executed := Executed(env, matches[0], st);
      EmissionsAgree(env, cfg, emissions, executed, path, scripts);
      EmissionsKeep(env, cfg, emissions, executed, path);
      var (r, exhausted) := RunEmissions(env, cfg, emissions, executed, path);
      var first := UnlimitedEmissions(env, emissions, w, path, fuel);
      var rest := if first.Some? then UnlimitedMatches(env, matches[1..], first.value.world, path, fuel) else None;
      UnlimitedMatchesStep(env, matches, st.world, path, fuel);
      var end := r;
      if !exhausted {
        end := RunMatches(env, cfg, matches[1..], r, path);
        MatchesAgree(env, cfg, matches[1..], r, path, scripts);
        MatchesKeep(env, cfg, matches[1..], r, path);
      }
      MatchStepAgrees(st, executed, outcome, r, end, first, rest);
    }
  }

  lemma {:induction false} EmissionsAgree<W>(env: Env<W>, cfg: CascadeConfig, emissions: seq<FieldMap>, st: State<W>,
      path: seq<FieldMap>, scripts: nat)
    requires Faithful(env, scripts) && |path| <= cfg.maxDepth && st.visited == Sigs(env, path)
    ensures var (r, exhausted) := RunEmissions(env, cfg, emissions, st, path);
      var u := UnlimitedEmissions(env, emissions, st.world, path, cfg.maxDepth - |path|);
      Agrees(st, r, u) && (exhausted ==> !WithinBudget(u, st.budget))
    decreases st.budget, 0, |emissions|
  {
    if emissions == [] {
      assert st.outcomes + [] == st.outcomes;
    } else {
      hide RunEmissions, UnlimitedEmissions, DispatchInner, Unlimited, Sigs, Faithful;
      UnfoldFirst(env, cfg, emissions, st, path);
      UnlimitedEmissionsStep(env, emissions, st.world, path, cfg.maxDepth - |path|);
      if st.budget == 0 {
        LimitShows(st, Synthetic(CascadeBudget(cfg.budget, |path|)));
      } else {
        var spent := st.(budget := st.budget - 1, emitted := st.emitted + 1);
        EmissionsStepAgrees(env, cfg, emissions, st, path, spent, DispatchInner(env, cfg, emissions[0], spent, path),
          Unlimited(env, emissions[0], st.world, path, cfg.maxDepth - |path|), scripts);
      }
    }
  }

  /** The runs that follow the dispatch of the first emission, which leaves `r`. */
  function RestOf<W>(env: Env<W>, emissions: seq<FieldMap>, first: Option<Run<W>>, path: seq<FieldMap>,
      fuel: nat): Option<Run<W>> {
    if first.Some? then UnlimitedEmissions(env, emissions, first.value.world, path, fuel) else None
  }

  lemma {:induction false} EmissionsStepAgrees<W>(env: Env<W>, cfg: CascadeConfig, emissions: seq<FieldMap>,
      st: State<W>, path: seq<FieldMap>, spent: State<W>, r: State<W>, first: Option<Run<W>>, scripts: nat)
    requires Faithful(env, scripts) && |path| <= cfg.maxDepth && st.visited == Sigs(env, path) && emissions != []
    requires st.budget > 0 && spent == st.(budget := st.budget - 1, emitted := st.emitted + 1)
    requires r == DispatchInner(env, cfg, emissions[0], spent, path)
    requires first == Unlimited(env, emissions[0], st.world, path, cfg.maxDepth - |path|)
    ensures var (end, exhausted) := RunEmissions(env, cfg, emissions[1..], r, path);
      var u := Then(Some(Run(st.world, [], 1)),
        Then(first, RestOf(env, emissions[1..], first, path, cfg.maxDepth - |path|)));
      Agrees(st, end, u) && (exhausted ==> !WithinBudget(u, st.budget))
    decreases st.budget - 1, 3, 0
  {
    DispatchAgrees(env, cfg, emissions[0], spent, path, scripts);
    DispatchKeeps(env, cfg, emissions[0], spent, path);
    EmissionsAgree(env, cfg, emissions[1..], r, path, scripts);
    EmissionsKeep(env, cfg, emissions[1..], r, path);
    var (end, exhausted) := RunEmissions(env, cfg, emissions[1..], r, path);
    EmissionStepAgrees(st, spent, r, end, exhausted, first,
      RestOf(env, emissions[1..], first, path, cfg.maxDepth - |path|));
  }

  // More fuel changes no answer, so the unlimited semantics has one result.

  lemma {:induction false} FuelGrows<W>(env: Env<W>, event: FieldMap, world: W, path: seq<FieldMap>, fuel: nat,
      more: nat)
    requires fuel <= more && Unlimited(env, event, world, path, fuel).Some?
    ensures Unlimited(env, event, world, path, more) == Unlimited(env, event, world, path, fuel)
    decreases fuel, 0, 0
  {
    if event !in path {
      FuelGrowsMatches(env, env.matching(event), world, path + [event], fuel - 1, more - 1);
    }
  }

  lemma {:induction false} FuelGrowsMatches<W>(env: Env<W>, matches: seq<ClauseMatch>, world: W, path: seq<FieldMap>,
      fuel: nat, more: nat)
    requires fuel <= more && UnlimitedMatches(env, matches, world, path, fuel).Some?
    ensures UnlimitedMatches(env, matches, world, path, more) == UnlimitedMatches(env, matches, world, path, fuel)
    decreases fuel, 2, |matches|
  {
    if matches != [] {
      var (w, result) := env.lua(world, matches[0].clause, matches[0].bindings);
      FuelGrowsEmissions(env, Emitted(result), w, path, fuel, more);
      var first := UnlimitedEmissions(env, Emitted(result), w, path, fuel).value;
      FuelGrowsMatches(env, matches[1..], first.world, path, fuel, more);
    }
  }

  lemma {:induction false} FuelGrowsEmissions<W>(env: Env<W>, emissions: seq<FieldMap>, world: W,
      path: seq<FieldMap>, fuel: nat, more: nat)
    requires fuel <= more && UnlimitedEmissions(env, emissions, world, path, fuel).Some?
    ensures UnlimitedEmissions(env, emissions, world, path, more) ==
      UnlimitedEmissions(env, emissions, world, path, fuel)
    decreases fuel, 1, |emissions|
  {
    if emissions != [] {
      FuelGrows(env, emissions[0], world, path, fuel, more);
      var first := Unlimited(env, emissions[0], world, path, fuel).value;
      FuelGrowsEmissions(env, emissions[1..], first.world, path, fuel, more);
    }
  }

  // Whole dispatches.

  /** A fresh dispatch tree over the engine's counters. */
  ghost predicate Fresh<W>(cfg: CascadeConfig, st: State<W>) {
    st.visited == {} && st.budget == cfg.budget && st.outcomes == [] && st.log == []
  }

  function Dispatch<W>(env: Env<W>, cfg: CascadeConfig, event: FieldMap, st: State<W>): State<W> {
    DispatchInner(env, cfg, event, st, [])
  }

  /**
   Every dispatch ends with a known bill: one call more than the budget spent, all counted as emissions,
   no call deeper than the limit, and a bounded number of outcomes.
   */
  lemma DispatchBill<W>(env: Env<W>, cfg: CascadeConfig, event: FieldMap, st: State<W>, scripts: nat)
    requires Faithful(env, scripts) && Fresh(cfg, st)
    ensures var r := Dispatch(env, cfg, event, st);
      && |r.log| == 1 + cfg.budget - r.budget <= cfg.budget + 1
      && r.emitted - st.emitted == cfg.budget - r.budget == |r.log| - 1
      && |r.outcomes| <= (cfg.budget + 1) * (scripts + 1)
      && r.visited == {}
  {
    DispatchKeeps(env, cfg, event, st, []);
    DispatchBounded(env, cfg, event, st, [], scripts);
    AtMostProduct(scripts + 1, |Dispatch(env, cfg, event, st).log|, cfg.budget + 1);
  }

  lemma AtMostProduct(k: nat, calls: nat, most: nat)
    requires calls <= most
    ensures k * calls <= most * k
  {
  }

  /**
   On every entry the visited set is the set of signatures of the active ancestors, one for each level of
   nesting; an event runs only if it differs from them all, and is a cycle exactly if it equals one.
   */
  lemma VisitedIsTheActiveStack<W>(env: Env<W>, cfg: CascadeConfig, event: FieldMap, st: State<W>, scripts: nat, i: nat)
    requires Faithful(env, scripts) && Fresh(cfg, st) && i < |Dispatch(env, cfg, event, st).log|
    ensures var e := Dispatch(env, cfg, event, st).log[i];
      Disciplined(env, cfg, e) && |e.visited| == |e.path|
  {
    assert Sigs(env, []) == {};
    DispatchDisciplined(env, cfg, event, st, [], scripts);
    SigsSize(env, Dispatch(env, cfg, event, st).log[i].path, scripts);
  }

  /**
   The limits are transparent: no limit shows in the outcomes exactly when the unlimited run needs no more
   nesting than `max_depth` and no more emissions than the budget, and then outcomes and world are its own.
   */
  lemma LimitsAreTransparent<W>(env: Env<W>, cfg: CascadeConfig, event: FieldMap, st: State<W>, scripts: nat)
    requires Faithful(env, scripts) && Fresh(cfg, st)
    ensures var r, u := Dispatch(env, cfg, event, st), Unlimited(env, event, st.world, [], cfg.maxDepth);
      && (Clean(r.outcomes) <==> WithinBudget(u, cfg.budget))
      && (Clean(r.outcomes) ==>
            r.outcomes == u.value.outcomes && r.world == u.value.world && cfg.budget - r.budget == u.value.emissions)
  {
    assert Sigs(env, []) == {};
    DispatchAgrees(env, cfg, event, st, [], scripts);
    var r := Dispatch(env, cfg, event, st);
    assert r.outcomes[0..] == r.outcomes;
  }

  /** Where no limit showed, larger limits give the identical result. */
  lemma LargerLimitsSameResult<W>(env: Env<W>, cfg: CascadeConfig, larger: CascadeConfig, event: FieldMap,
      st: State<W>, st': State<W>, scripts: nat)
    requires Faithful(env, scripts) && cfg.maxDepth <= larger.maxDepth && cfg.budget <= larger.budget
    requires Fresh(cfg, st) && Fresh(larger, st') && st'.world == st.world
    requires Clean(Dispatch(env, cfg, event, st).outcomes)
    ensures var r, r' := Dispatch(env, cfg, event, st), Dispatch(env, larger, event, st');
      r'.outcomes == r.outcomes && r'.world == r.world
  {
    LimitsAreTransparent(env, cfg, event, st, scripts);
    FuelGrows(env, event, st.world, [], cfg.maxDepth, larger.maxDepth);
    LimitsAreTransparent(env, larger, event, st', scripts);
  }

  /**
   The depth and cycle outcomes are those of the refused entries, one each, in order; the statistics add up:
   matched clauses, deepest nesting, and the latest body error of each script over the earlier ones.
   */
  lemma StatisticsAreTrue<W>(env: Env<W>, cfg: CascadeConfig, event: FieldMap, st: State<W>)
    requires Fresh(cfg, st)
    ensures Recorded(env, cfg, st, Dispatch(env, cfg, event, st))
  {
    assert st.lastError + map[] == st.lastError;
    DispatchRecords(env, cfg, event, st, [], st);
  }

  /**
   The budget outcomes report falling depths, one for each level that was active when the budget was spent
   and still had something to emit: there are at most `max_depth` of them, and none while budget is left.
   */
  lemma BudgetOutcomesDescend<W>(env: Env<W>, cfg: CascadeConfig, event: FieldMap, st: State<W>)
    requires Fresh(cfg, st)
    ensures var r := Dispatch(env, cfg, event, st);
      var depths := BudgetDepths(r.outcomes);
      && Descends(depths, 1, cfg.maxDepth)
      && |depths| <= cfg.maxDepth
      && (depths != [] ==> r.budget == 0)
  {
    var depths := DispatchExhausts(env, cfg, event, st, []);
    assert BudgetDepths(st.outcomes) + depths == depths;
    DescentIsShort(depths, cfg.maxDepth);
  }
}
