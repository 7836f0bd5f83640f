/** Dispatch as a tree (`crates/luaml/src/lib.rs`). */
module CallTrees {
  // A dispatch is a tree of calls: each clause that matched runs its body once, and every event that the body
  // emitted becomes a call, in order, until the budget is spent.  Log, outcomes and world are read off the tree.

  import opened Values
  import opened Registry
  import opened Cascade

  /** A call of an event, with the world before and after it. */
  datatype Call<W> = Call(event: FieldMap, path: seq<FieldMap>, verdict: Verdict, runs: seq<ClauseRun<W>>,
    before: W, after: W)

  /**
   A body run in a world, what it answered, the calls it led to, and the world after them; `cut` if the budget
   allowed no more calls.
   */
  datatype ClauseRun<W> = ClauseRun(m: ClauseMatch, before: W, result: BodyResult, calls: seq<Call<W>>, cut: bool,
    after: W)

  // Which trees are dispatches.

  ghost predicate CallOk<W>(env: Env<W>, cfg: CascadeConfig, call: Call<W>)
    decreases call
  {
    if |call.path| >= cfg.maxDepth then call.verdict == TooDeep && call.runs == []
    else if call.event in call.path then call.verdict == Cycle && call.runs == []
    else call.verdict == Runs && RunsOk(env, cfg, call.runs, env.matching(call.event), call.path + [call.event])
  }

  /** One run for each match, in order, the last one being cut if there are matches without a run. */
  ghost predicate RunsOk<W>(env: Env<W>, cfg: CascadeConfig, runs: seq<ClauseRun<W>>, matches: seq<ClauseMatch>,
      path: seq<FieldMap>)
    decreases runs, 2
  {
    if runs == [] then matches == []
    else
      && matches != []
      && RunOk(env, cfg, runs[0], matches[0], path)
      && if runs[0].cut then |runs| == 1 else RunsOk(env, cfg, runs[1..], matches[1..], path)
  }

  /** The run is that of the match, and calls what its body emitted: all of it unless it is cut. */
  ghost predicate RunOk<W>(env: Env<W>, cfg: CascadeConfig, run: ClauseRun<W>, m: ClauseMatch, path: seq<FieldMap>)
    decreases run, 1
  {
    && run.m == m
    && run.result == env.lua(run.before, m.clause, m.bindings).1
    && CallsOk(env, cfg, run.calls, Emitted(run.result), path)
    && (run.cut <==> |run.calls| < |Emitted(run.result)|)
  }

  ghost predicate CallsOk<W>(env: Env<W>, cfg: CascadeConfig, calls: seq<Call<W>>, events: seq<FieldMap>,
      path: seq<FieldMap>)
    decreases calls, 2
  {
    if calls == [] then true
    else
      && events != []
      && calls[0].event == events[0] && calls[0].path == path && CallOk(env, cfg, calls[0])
      && CallsOk(env, cfg, calls[1..], events[1..], path)
  }

  // What is read off a tree.

  ghost function LogOf<W>(env: Env<W>, call: Call<W>): seq<Entry>
    decreases call
  {
    [Entry(call.path, call.event, Sigs(env, call.path), call.verdict)] + LogOfRuns(env, call.runs)
  }

  ghost function LogOfRuns<W>(env: Env<W>, runs: seq<ClauseRun<W>>): seq<Entry>
    decreases runs
  {
    if runs == [] then [] else LogOfCalls(env, runs[0].calls) + LogOfRuns(env, runs[1..])
  }

  ghost function LogOfCalls<W>(env: Env<W>, calls: seq<Call<W>>): seq<Entry>
    decreases calls
  {
    if calls == [] then [] else LogOf(env, calls[0]) + LogOfCalls(env, calls[1..])
  }

  ghost function OutcomesOf<W>(cfg: CascadeConfig, call: Call<W>): seq<ClauseOutcome>
    decreases call
  {
    match call.verdict
    case TooDeep => [Synthetic(CascadeDepth(|call.path|, cfg.maxDepth))]
    case Cycle => [Synthetic(CascadeCycle(|call.path|))]
    case Runs => OutcomesOfRuns(cfg, call.runs, |call.path| + 1)
  }

  ghost function OutcomesOfRuns<W>(cfg: CascadeConfig, runs: seq<ClauseRun<W>>, depth: nat): seq<ClauseOutcome>
    decreases runs, 1
  {
    if runs == [] then []
    else
      var run := runs[0];
      [ClauseOutcome(run.m.script.sourcePath, run.m.clause, run.m.bindings, Report(run.result))]
      + (OutcomesOfCalls(cfg, run.calls) + (if run.cut then [Synthetic(CascadeBudget(cfg.budget, depth))] else []))
      + OutcomesOfRuns(cfg, runs[1..], depth)
  }

  ghost function OutcomesOfCalls<W>(cfg: CascadeConfig, calls: seq<Call<W>>): seq<ClauseOutcome>
    decreases calls
  {
    if calls == [] then [] else OutcomesOf(cfg, calls[0]) + OutcomesOfCalls(cfg, calls[1..])
  }

  /** The world goes from body to body, in the order of the tree. */
  ghost predicate Threads<W>(env: Env<W>, call: Call<W>)
    decreases call
  {
    ThreadsRuns(env, call.runs, call.before, call.after)
  }

  ghost predicate ThreadsRuns<W>(env: Env<W>, runs: seq<ClauseRun<W>>, before: W, after: W)
    decreases runs
  {
    if runs == [] then before == after
    else
      var run := runs[0];
      && run.before == before
      && ThreadsCalls(env, run.calls, env.lua(before, run.m.clause, run.m.bindings).0, run.after)
      && ThreadsRuns(env, runs[1..], run.after, after)
  }

  ghost predicate ThreadsCalls<W>(env: Env<W>, calls: seq<Call<W>>, before: W, after: W)
    decreases calls
  {
    if calls == [] then before == after
    else
      calls[0].before == before && Threads(env, calls[0]) && ThreadsCalls(env, calls[1..], calls[0].after, after)
  }

  // Every dispatch is such a tree.

  ghost predicate Adds<W>(st: State<W>, r: State<W>, log: seq<Entry>, outcomes: seq<ClauseOutcome>) {
    r.log == st.log + log && r.outcomes == st.outcomes + outcomes
  }

  lemma AddsThen<W>(st: State<W>, mid: State<W>, r: State<W>, log: seq<Entry>, outcomes: seq<ClauseOutcome>,
      log': seq<Entry>, outcomes': seq<ClauseOutcome>)
    requires Adds(st, mid, log, outcomes) && Adds(mid, r, log', outcomes')
    ensures Adds(st, r, log + log', outcomes + outcomes')
  {
    ConcatThree(st.log, log, log');
    ConcatThree(st.outcomes, outcomes, outcomes');
  }

  ghost predicate Grows<W>(env: Env<W>, cfg: CascadeConfig, call: Call<W>, st: State<W>, r: State<W>) {
    && Adds(st, r, LogOf(env, call), OutcomesOf(cfg, call))
    && call.before == st.world && call.after == r.world && Threads(env, call)
  }

  ghost predicate GrowsRuns<W>(env: Env<W>, cfg: CascadeConfig, runs: seq<ClauseRun<W>>, depth: nat,
      st: State<W>, r: State<W>)
  {
    && Adds(st, r, LogOfRuns(env, runs), OutcomesOfRuns(cfg, runs, depth))
    && ThreadsRuns(env, runs, st.world, r.world)
  }

  ghost predicate GrowsCalls<W>(env: Env<W>, cfg: CascadeConfig, calls: seq<Call<W>>, st: State<W>, r: State<W>,
      last: seq<ClauseOutcome>)
  {
    && Adds(st, r, LogOfCalls(env, calls), OutcomesOfCalls(cfg, calls) + last)
    && ThreadsCalls(env, calls, st.world, r.world)
  }

  lemma {:induction false} DispatchTree<W>(env: Env<W>, cfg: CascadeConfig, event: FieldMap, st: State<W>,
      path: seq<FieldMap>, scripts: nat)
    returns (call: Call<W>)
    requires Faithful(env, scripts) && |path| <= cfg.maxDepth && st.visited == Sigs(env, path)
    ensures call.event == event && call.path == path && CallOk(env, cfg, call)
    ensures Grows(env, cfg, call, st, DispatchInner(env, cfg, event, st, path))
    decreases st.budget, 2, 0
  {
    var sig := env.signature(event);
    SigsContain(env, path, event, scripts);
    if |path| >= cfg.maxDepth {
      call := Call(event, path, TooDeep, [], st.world, st.world);
      LeafGrows(env, cfg, call, st, DispatchInner(env, cfg, event, st, path));
    } else if sig in st.visited {
      call := Call(event, path, Cycle, [], st.world, st.world);
      LeafGrows(env, cfg, call, st, DispatchInner(env, cfg, event, st, path));
    } else {
      hide Sigs, RunMatches, DispatchInner;
      var matches := env.matching(event);
      var entered := st.Enter(path, event, Runs).(visited := st.visited + {sig}, matched := st.matched + |matches|);
      UnfoldDispatch(env, cfg, event, st, path, matches, entered);
      SigsPush(env, path, event);
      var runs := MatchesTree(env, cfg, matches, entered, path + [event], scripts);
      call := Call(event, path, Runs, runs, st.world, DispatchInner(env, cfg, event, st, path).world);
      RunsGrow(env, cfg, call, st, entered, RunMatches(env, cfg, matches, entered, path + [event]),
        DispatchInner(env, cfg, event, st, path));
    }
  }

  lemma LeafGrows<W>(env: Env<W>, cfg: CascadeConfig, call: Call<W>, st: State<W>, r: State<W>)
    requires call.runs == [] && call.verdict != Runs && st.visited == Sigs(env, call.path)
    requires call.before == call.after == st.world
    requires r == st.Enter(call.path, call.event, call.verdict).Push(
      Synthetic(if call.verdict == TooDeep then CascadeDepth(|call.path|, cfg.maxDepth) else CascadeCycle(|call.path|)))
    ensures Grows(env, cfg, call, st, r)
  {
    var e := Entry(call.path, call.event, Sigs(env, call.path), call.verdict);
    assert LogOf(env, call) == [e] + [] == [e];
  }

  lemma RunsGrow<W>(env: Env<W>, cfg: CascadeConfig, call: Call<W>, st: State<W>, entered: State<W>, r: State<W>,
      left: State<W>)
    requires call.verdict == Runs && st.visited == Sigs(env, call.path)
    requires call.before == st.world && call.after == left.world
    requires entered.outcomes == st.outcomes && entered.world == st.world
    requires entered.log == st.log + [Entry(call.path, call.event, st.visited, Runs)]
    requires left.log == r.log && left.outcomes == r.outcomes && left.world == r.world
    requires GrowsRuns(env, cfg, call.runs, |call.path| + 1, entered, r)
    ensures Grows(env, cfg, call, st, left)
  {
    hide LogOfRuns, OutcomesOfRuns, Sigs, ThreadsRuns;
    ConcatThree(st.log, [Entry(call.path, call.event, st.visited, Runs)], LogOfRuns(env, call.runs));
  }

  lemma {:induction false} MatchesTree<W>(env: Env<W>, cfg: CascadeConfig, matches: seq<ClauseMatch>, st: State<W>,
      path: seq<FieldMap>, scripts: nat)
    returns (runs: seq<ClauseRun<W>>)
    requires Faithful(env, scripts) && |path| <= cfg.maxDepth && st.visited == Sigs(env, path)
    ensures RunsOk(env, cfg, runs, matches, path)
    ensures GrowsRuns(env, cfg, runs, |path|, st, RunMatches(env, cfg, matches, st, path))
    decreases st.budget, 1, |matches|
  {
    runs := [];
    if matches == [] {
      NothingLeft(env, cfg, st, path);
      NoRunsGrow(env, cfg, |path|, st);
    } else {
      hide RunMatches, RunEmissions, Sigs, GrowsCalls, GrowsRuns, CallsOk, Faithful;
      var m := matches[0];
      var executed := Executed(env, m, st);
      var events := Execute(env, m, st.world).2;
      ExecuteIsTheBody(env, m, st.world);
      UnfoldMatches(env, cfg, matches, st, path);
      var (r, exhausted) := RunEmissions(env, cfg, events, executed, path);
      var calls := EmissionsTree(env, cfg, events, executed, path, scripts);
      EmissionsKeep(env, cfg, events, executed, path);
      var run := ClauseRun(m, st.world, env.lua(st.world, m.clause, m.bindings).1, calls, exhausted, r.world);
      runs := [run];
      if exhausted {
        NoRunsGrow(env, cfg, |path|, r);
        RunGrows(env, cfg, run, [], |path|, st, executed, r, r);
        assert [run] + [] == runs;
      } else {
        var rest := MatchesTree(env, cfg, matches[1..], r, path, scripts);
        runs := [run] + rest;
        RunGrows(env, cfg, run, rest, |path|, st, executed, r, RunMatches(env, cfg, matches[1..], r, path));
      }
    }
  }

  lemma NoRunsGrow<W>(env: Env<W>, cfg: CascadeConfig, depth: nat, st: State<W>)
    ensures GrowsRuns(env, cfg, [], depth, st, st)
  {
    assert st.log + [] == st.log && st.outcomes + [] == st.outcomes;
  }

  lemma RunGrows<W>(env: Env<W>, cfg: CascadeConfig, run: ClauseRun<W>, rest: seq<ClauseRun<W>>, depth: nat,
      st: State<W>, executed: State<W>, r: State<W>, end: State<W>)
    requires run.before == st.world && run.after == r.world && executed == Executed(env, run.m, st)
    requires run.result == env.lua(st.world, run.m.clause, run.m.bindings).1
    requires GrowsCalls(env, cfg, run.calls, executed, r,
      if run.cut then [Synthetic(CascadeBudget(cfg.budget, depth))] else [])
    requires GrowsRuns(env, cfg, rest, depth, r, end)
    ensures GrowsRuns(env, cfg, [run] + rest, depth, st, end)
  {
    hide LogOfCalls, OutcomesOfCalls, ThreadsCalls;
    ExecuteIsTheBody(env, run.m, st.world);
    var outcome := ClauseOutcome(run.m.script.sourcePath, run.m.clause, run.m.bindings, Report(run.result));
    var last := if run.cut then [Synthetic(CascadeBudget(cfg.budget, depth))] else [];
    assert st.log + [] == st.log;
    assert Adds(st, executed, [], [outcome]);
    AddsThen(st, executed, r, [], [outcome], LogOfCalls(env, run.calls), OutcomesOfCalls(cfg, run.calls) + last);
    AddsThen(st, r, end, [] + LogOfCalls(env, run.calls), [outcome] + (OutcomesOfCalls(cfg, run.calls) + last),
      LogOfRuns(env, rest), OutcomesOfRuns(cfg, rest, depth));
    var runs := [run] + rest;
    assert runs[0] == run && runs[1..] == rest;
    assert [] + LogOfCalls(env, run.calls) == LogOfCalls(env, run.calls);
  }

  lemma {:induction false} EmissionsTree<W>(env: Env<W>, cfg: CascadeConfig, events: seq<FieldMap>, st: State<W>,
      path: seq<FieldMap>, scripts: nat)
    returns (calls: seq<Call<W>>)
    requires Faithful(env, scripts) && |path| <= cfg.maxDepth && st.visited == Sigs(env, path)
    ensures var (r, exhausted) := RunEmissions(env, cfg, events, st, path);
      && CallsOk(env, cfg, calls, events, path)
      && (exhausted <==> |calls| < |events|)
      && GrowsCalls(env, cfg, calls, st, r, if exhausted then [Synthetic(CascadeBudget(cfg.budget, |path|))] else [])
    decreases st.budget, 0, |events|
  {
    calls := [];
    if events == [] {
      NothingLeft(env, cfg, st, path);
      NoCallsGrow(env, cfg, st);
    } else {
      hide RunEmissions, DispatchInner, Sigs, Grows, GrowsCalls, CallOk, Faithful;
      UnfoldFirst(env, cfg, events, st, path);
      if st.budget == 0 {
        CutGrows(env, cfg, st, |path|);
      } else {
        var spent := st.(budget := st.budget - 1, emitted := st.emitted + 1);
        var mid := DispatchInner(env, cfg, events[0], spent, path);
        var call := DispatchTree(env, cfg, events[0], spent, path, scripts);
        DispatchKeeps(env, cfg, events[0], spent, path);
        var rest := EmissionsTree(env, cfg, events[1..], mid, path, scripts);
        calls := [call] + rest;
        assert calls[1..] == rest;
        var (r, exhausted) := RunEmissions(env, cfg, events[1..], mid, path);
        CallGrows(env, cfg, call, rest, st, spent, mid, r,
          if exhausted then [Synthetic(CascadeBudget(cfg.budget, |path|))] else []);
      }
    }
  }

  lemma NoCallsGrow<W>(env: Env<W>, cfg: CascadeConfig, st: State<W>)
    ensures GrowsCalls(env, cfg, [], st, st, [])
  {
    assert st.log + [] == st.log && st.outcomes + ([] + []) == st.outcomes;
  }

  lemma CutGrows<W>(env: Env<W>, cfg: CascadeConfig, st: State<W>, depth: nat)
    ensures var o := Synthetic(CascadeBudget(cfg.budget, depth));
      GrowsCalls(env, cfg, [], st, st.Push(o), [o])
  {
    var o := Synthetic(CascadeBudget(cfg.budget, depth));
    assert st.log + [] == st.log && st.outcomes + ([] + [o]) == st.outcomes + [o];
  }

  lemma CallGrows<W>(env: Env<W>, cfg: CascadeConfig, call: Call<W>, rest: seq<Call<W>>, st: State<W>,
      spent: State<W>, mid: State<W>, r: State<W>, last: seq<ClauseOutcome>)
    requires spent.log == st.log && spent.outcomes == st.outcomes && spent.world == st.world
    requires Grows(env, cfg, call, spent, mid) && GrowsCalls(env, cfg, rest, mid, r, last)
    ensures GrowsCalls(env, cfg, [call] + rest, st, r, last)
  {
    hide LogOf, OutcomesOf, Threads;
    var calls := [call] + rest;
    assert calls[0] == call && calls[1..] == rest;
    AddsThen(st, mid, r, LogOf(env, call), OutcomesOf(cfg, call), LogOfCalls(env, rest),
      OutcomesOfCalls(cfg, rest) + last);
    ConcatThree(OutcomesOf(cfg, call), OutcomesOfCalls(cfg, rest), last);
  }

  /** The tree of a dispatch: its root is the dispatched event, and log, outcomes and world are the tree's. */
  lemma DispatchIsATree<W>(env: Env<W>, cfg: CascadeConfig, event: FieldMap, st: State<W>, scripts: nat)
    returns (call: Call<W>)
    requires Faithful(env, scripts) && Fresh(cfg, st)
    ensures call.event == event && call.path == [] && CallOk(env, cfg, call)
    ensures var r := Dispatch(env, cfg, event, st);
      && r.log == LogOf(env, call) && r.outcomes == OutcomesOf(cfg, call)
      && call.before == st.world && call.after == r.world && Threads(env, call)
  {
    hide LogOf, OutcomesOf, Threads, CallOk;
    assert Sigs(env, []) == {};
    call := DispatchTree(env, cfg, event, st, [], scripts);
    assert [] + LogOf(env, call) == LogOf(env, call) && [] + OutcomesOf(cfg, call) == OutcomesOf(cfg, call);
  }

  // How many events are dispatched.

  function Sum(outcomes: seq<ClauseOutcome>): nat {
    if outcomes == [] then 0
    else (if outcomes[0].result.Ok? then |outcomes[0].result.value| else 0) + Sum(outcomes[1..])
  }

  lemma {:induction false} SumConcat(a: seq<ClauseOutcome>, b: seq<ClauseOutcome>)
    ensures Sum(a + b) == Sum(a) + Sum(b)
  {
    if a == [] {
      assert a + b == b;
    } else {
      SumConcat(a[1..], b);
      assert (a + b)[1..] == a[1..] + b;
    }
  }

  ghost predicate NoBudgetOutcome(outcomes: seq<ClauseOutcome>) {
    forall i | 0 <= i < |outcomes| :: !IsBudget(outcomes[i])
  }

  lemma NoBudgetConcat(a: seq<ClauseOutcome>, b: seq<ClauseOutcome>)
    ensures NoBudgetOutcome(a + b) <==> NoBudgetOutcome(a) && NoBudgetOutcome(b)
  {
    if NoBudgetOutcome(a + b) {
      assert forall i | 0 <= i < |a| :: a[i] == (a + b)[i];
      assert forall i | 0 <= i < |b| :: b[i] == (a + b)[|a| + i];
    }
  }

  /** Below a call there is a call for each emitted event, unless the budget was spent. */
  lemma {:induction false} CallCounts<W>(env: Env<W>, cfg: CascadeConfig, call: Call<W>)
    requires CallOk(env, cfg, call)
    ensures |LogOf(env, call)| - 1 <= Sum(OutcomesOf(cfg, call))
    ensures NoBudgetOutcome(OutcomesOf(cfg, call)) <==> |LogOf(env, call)| - 1 == Sum(OutcomesOf(cfg, call))
    decreases call
  {
    if call.verdict == Runs {
      RunsCount(env, cfg, call.runs, env.matching(call.event), call.path + [call.event]);
    } else {
      assert OutcomesOf(cfg, call)[1..] == [];
    }
  }

  lemma {:induction false} RunsCount<W>(env: Env<W>, cfg: CascadeConfig, runs: seq<ClauseRun<W>>,
      matches: seq<ClauseMatch>, path: seq<FieldMap>)
    requires RunsOk(env, cfg, runs, matches, path)
    ensures var log, outcomes := LogOfRuns(env, runs), OutcomesOfRuns(cfg, runs, |path|);
      |log| <= Sum(outcomes) && (NoBudgetOutcome(outcomes) <==> |log| == Sum(outcomes))
    decreases runs
  {
    if runs != [] {
      hide LogOfCalls, OutcomesOfCalls, CallsOk;
      var run := runs[0];
      var first := [ClauseOutcome(run.m.script.sourcePath, run.m.clause, run.m.bindings, Report(run.result))];
      var last := if run.cut then [Synthetic(CascadeBudget(cfg.budget, |path|))] else [];
      var calls := OutcomesOfCalls(cfg, run.calls);
      if run.cut { assert runs[1..] == []; } else { RunsCount(env, cfg, runs[1..], matches[1..], path); }
      CallsCount(env, cfg, run.calls, Emitted(run.result), path);
      RunSums(first, calls, last, OutcomesOfRuns(cfg, runs[1..], |path|));
      assert Sum(first) == |Emitted(run.result)| + Sum(first[1..]) && first[1..] == [];
      assert run.cut ==> last[0] == last[0] && IsBudget(last[0]) && last[1..] == [];
    }
  }

  lemma RunSums(first: seq<ClauseOutcome>, calls: seq<ClauseOutcome>, last: seq<ClauseOutcome>,
      rest: seq<ClauseOutcome>)
    ensures var all := first + (calls + last) + rest;
      && Sum(all) == Sum(first) + Sum(calls) + Sum(last) + Sum(rest)
      && (NoBudgetOutcome(all) <==>
           NoBudgetOutcome(first) && NoBudgetOutcome(calls) && NoBudgetOutcome(last) && NoBudgetOutcome(rest))
  {
    SumConcat(first + (calls + last), rest);
    SumConcat(first, calls + last);
    SumConcat(calls, last);
    NoBudgetConcat(first + (calls + last), rest);
    NoBudgetConcat(first, calls + last);
    NoBudgetConcat(calls, last);
  }

  lemma {:induction false} CallsCount<W>(env: Env<W>, cfg: CascadeConfig, calls: seq<Call<W>>, events: seq<FieldMap>,
      path: seq<FieldMap>)
    requires CallsOk(env, cfg, calls, events, path)
    ensures |calls| <= |events|
    ensures var log, outcomes := LogOfCalls(env, calls), OutcomesOfCalls(cfg, calls);
      |log| <= |calls| + Sum(outcomes) && (NoBudgetOutcome(outcomes) <==> |log| == |calls| + Sum(outcomes))
    decreases calls
  {
    if calls != [] {
      hide LogOf, OutcomesOf, CallOk;
      CallCounts(env, cfg, calls[0]);
      CallsCount(env, cfg, calls[1..], events[1..], path);
      SumConcat(OutcomesOf(cfg, calls[0]), OutcomesOfCalls(cfg, calls[1..]));
      NoBudgetConcat(OutcomesOf(cfg, calls[0]), OutcomesOfCalls(cfg, calls[1..]));
    }
  }

  /**
   The events emitted by all bodies together are dispatched, each once, exactly when no budget outcome is left;
   otherwise fewer are.
   */
  lemma EveryEmissionIsDispatched<W>(env: Env<W>, cfg: CascadeConfig, event: FieldMap, st: State<W>, scripts: nat)
    requires Faithful(env, scripts) && Fresh(cfg, st)
    ensures var r := Dispatch(env, cfg, event, st);
      && r.emitted - st.emitted <= Sum(r.outcomes)
      && (NoBudgetOutcome(r.outcomes) <==> r.emitted - st.emitted == Sum(r.outcomes))
  {
    var call := DispatchIsATree(env, cfg, event, st, scripts);
    CallCounts(env, cfg, call);
    DispatchBill(env, cfg, event, st, scripts);
  }
}
