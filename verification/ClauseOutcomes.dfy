/** Outcomes of clauses (`crates/luaml/src/lib.rs`). */
module ClauseOutcomes {
  // Which of the matched clauses get an outcome: all of them, unless the emission budget cuts a loop short.

  import opened Wrappers
  import opened Values
  import opened Clauses
  import opened Registry
  import opened Cascade

  /** An outcome that reports a limit or a cycle, and belongs to no clause. */
  predicate IsSynthetic(o: ClauseOutcome) {
    IsDepth(o) || IsCycle(o) || IsBudget(o)
  }

  /** How many of the outcomes belong to clauses. */
  function Executions(outcomes: seq<ClauseOutcome>): nat {
    if outcomes == [] then 0
    else
      var last := |outcomes| - 1;
      Executions(outcomes[..last]) + if IsSynthetic(outcomes[last]) then 0 else 1
  }

  function Cuts<W>(st: State<W>): nat {
    |BudgetDepths(st.outcomes)|
  }

  /**
   From `st` to `r` no more clauses ran than `owed` and those matched on the way, and each budget outcome kept
   at most `k` clauses from running; `spare` budget outcomes have not been charged yet.
   */
  ghost predicate Accounts<W>(st: State<W>, r: State<W>, owed: nat, k: nat, spare: nat) {
    var executed, due := Executions(r.outcomes) - Executions(st.outcomes), owed + r.matched - st.matched;
    && Cuts(st) + spare <= Cuts(r)
    && executed <= due <= executed + k * (Cuts(r) - Cuts(st) - spare)
  }

  lemma PushAccounts<W>(st: State<W>, o: ClauseOutcome)
    ensures Executions(st.Push(o).outcomes) == Executions(st.outcomes) + if IsSynthetic(o) then 0 else 1
    ensures Cuts(st.Push(o)) == Cuts(st) + if IsBudget(o) then 1 else 0
  {
    PushBudget(st.outcomes, o);
    assert (st.outcomes + [o])[..|st.outcomes|] == st.outcomes;
  }

  lemma AccountsThen<W>(st: State<W>, mid: State<W>, r: State<W>, a: nat, b: nat, k: nat, spare: nat)
    requires Accounts(st, mid, a, k, 0) && Accounts(mid, r, b, k, spare)
    ensures Accounts(st, r, a + b, k, spare)
  {
    hide Executions, Cuts;
    Distribute(k, Cuts(mid) - Cuts(st), Cuts(r) - Cuts(mid) - spare);
  }

  /** A budget outcome pays for up to `k` clauses that are not run. */
  lemma SpareIsSpent<W>(st: State<W>, r: State<W>, owed: nat, skipped: nat, k: nat)
    requires Accounts(st, r, owed, k, 1) && skipped <= k
    ensures Accounts(st, r, owed + skipped, k, 0)
  {
    hide Executions, Cuts;
    Distribute(k, Cuts(r) - Cuts(st) - 1, 1);
  }

  lemma {:induction false} DispatchAccounts<W>(env: Env<W>, cfg: CascadeConfig, event: FieldMap, st: State<W>,
      path: seq<FieldMap>, k: nat)
    requires Faithful(env, k + 1)
    ensures Accounts(st, DispatchInner(env, cfg, event, st, path), 0, k, 0)
    decreases st.budget, 2, 0
  {
    hide RunMatches, Executions, Cuts;
    var sig := env.signature(event);
    if |path| >= cfg.maxDepth {
      PushAccounts(st.Enter(path, event, TooDeep), Synthetic(CascadeDepth(|path|, cfg.maxDepth)));
      SameOutcomes(st, st.Enter(path, event, TooDeep));
    } else if sig in st.visited {
      PushAccounts(st.Enter(path, event, Cycle), Synthetic(CascadeCycle(|path|)));
      SameOutcomes(st, st.Enter(path, event, Cycle));
    } else {
      hide DispatchInner;
      var matches := env.matching(event);
      var entered := st.Enter(path, event, Runs).(visited := st.visited + {sig}, matched := st.matched + |matches|);
      UnfoldDispatch(env, cfg, event, st, path, matches, entered);
      MatchesAccount(env, cfg, matches, entered, path + [event], k);
      var r := RunMatches(env, cfg, matches, entered, path + [event]);
      SameOutcomes(st, entered);
      SameOutcomes(r, r.(visited := r.visited - {sig}));
    }
  }

  lemma SameOutcomes<W>(a: State<W>, b: State<W>)
    requires a.outcomes == b.outcomes
    ensures Cuts(a) == Cuts(b)
  {
  }

  lemma SameStart<W>(a: State<W>, b: State<W>, r: State<W>, k: nat)
    requires Accounts(a, r, 0, k, 0) && a.outcomes == b.outcomes && a.matched == b.matched
    ensures Accounts(b, r, 0, k, 0)
  {
    hide Executions;
  }

  lemma {:induction false} MatchesAccount<W>(env: Env<W>, cfg: CascadeConfig, matches: seq<ClauseMatch>, st: State<W>,
      path: seq<FieldMap>, k: nat)
    requires Faithful(env, k + 1) && |matches| <= k + 1
    ensures Accounts(st, RunMatches(env, cfg, matches, st, path), |matches|, k, 0)
    decreases st.budget, 1, |matches|
  {
    if matches == [] {
      NothingLeft(env, cfg, st, path);
    } else {
      hide RunMatches, RunEmissions, Executions, Cuts, Faithful, Accounts;
      var emissions := Execute(env, matches[0], st.world).2;
      var executed := Executed(env, matches[0], st);
      UnfoldMatches(env, cfg, matches, st, path);
      var (r, exhausted) := RunEmissions(env, cfg, emissions, executed, path);
      ExecutedAccounts(env, st, matches[0], k);
      EmissionsAccount(env, cfg, emissions, executed, path, k);
      AccountsThen(st, executed, r, 1, 0, k, if exhausted then 1 else 0);
      if exhausted {
        SpareIsSpent(st, r, 1, |matches| - 1, k);
      } else {
        MatchesAccount(env, cfg, matches[1..], r, path, k);
        AccountsThen(st, r, RunMatches(env, cfg, matches[1..], r, path), 1, |matches| - 1, k, 0);
      }
    }
  }

  lemma ExecutedAccounts<W>(env: Env<W>, st: State<W>, m: ClauseMatch, k: nat)
    ensures Accounts(st, Executed(env, m, st), 1, k, 0)
  {
    hide Executions, Cuts;
    var outcome := Execute(env, m, st.world).1;
    PushAccounts(st, outcome);
    SameOutcomes(st.Push(outcome), Executed(env, m, st));
  }

  lemma {:induction false} EmissionsAccount<W>(env: Env<W>, cfg: CascadeConfig, emissions: seq<FieldMap>,
      st: State<W>, path: seq<FieldMap>, k: nat)
    requires Faithful(env, k + 1)
    ensures var (r, exhausted) := RunEmissions(env, cfg, emissions, st, path);
      Accounts(st, r, 0, k, if exhausted then 1 else 0)
    decreases st.budget, 0, |emissions|
  {
    if emissions == [] {
      NothingLeft(env, cfg, st, path);
    } else {
      hide RunEmissions, DispatchInner, Executions, Cuts, Faithful;
      UnfoldFirst(env, cfg, emissions, st, path);
      if st.budget == 0 {
        PushAccounts(st, Synthetic(CascadeBudget(cfg.budget, |path|)));
      } else {
        hide Accounts;
        var spent := st.(budget := st.budget - 1, emitted := st.emitted + 1);
        var mid := DispatchInner(env, cfg, emissions[0], spent, path);
        DispatchAccounts(env, cfg, emissions[0], spent, path, k);
        EmissionsAccount(env, cfg, emissions[1..], mid, path, k);
        SameStart(spent, st, mid, k);
        var (r, exhausted) := RunEmissions(env, cfg, emissions[1..], mid, path);
        AccountsThen(st, mid, r, 0, 0, k, if exhausted then 1 else 0);
      }
    }
  }

  /**
   A dispatch runs each clause it matched at most once, and every one of them as long as no budget outcome is
   left: bodies that raise, refused events and cycles stop no sibling.  Each budget outcome stands for a loop
   over matches that was left early, so it costs at most the other scripts' clauses.
   */
  lemma OneOutcomePerMatch<W>(env: Env<W>, cfg: CascadeConfig, event: FieldMap, st: State<W>, scripts: nat)
    requires Faithful(env, scripts) && Fresh(cfg, st)
    ensures var r, others := Dispatch(env, cfg, event, st), if scripts == 0 then 0 else scripts - 1;
      var executed, matched, cuts := Executions(r.outcomes), r.matched - st.matched, |BudgetDepths(r.outcomes)|;
      && executed <= matched <= executed + others * cuts
      && (cuts == 0 || others == 0 ==> executed == matched)
  {
    DispatchAccounts(env, cfg, event, st, [], if scripts == 0 then 0 else scripts - 1);
  }

  /** A script whose one clause matches every event. */
  function EveryEvent(path: string): Script {
    Script(path, None, [SYNTHETIC_CLAUSE])
  }

  lemma EveryEventMatches(lib: NumberLib, path: string, event: FieldMap)
    ensures FirstMatch(lib, EveryEvent(path), event) == Some(ClauseMatch(EveryEvent(path), SYNTHETIC_CLAUSE, map[]))
  {
  }

  lemma BothMatch(lib: NumberLib, a: string, b: string, event: FieldMap)
    ensures MatchAll(lib, [EveryEvent(a), EveryEvent(b)], event) ==
      [ClauseMatch(EveryEvent(a), SYNTHETIC_CLAUSE, map[]), ClauseMatch(EveryEvent(b), SYNTHETIC_CLAUSE, map[])]
  {
    hide FirstMatch, EveryEvent;
    EveryEventMatches(lib, a, event);
    EveryEventMatches(lib, b, event);
    var scripts := [EveryEvent(a), EveryEvent(b)];
    assert scripts[1..] == [EveryEvent(b)] && [EveryEvent(b)][1..] == [];
    assert MatchAll(lib, [EveryEvent(b)], event) == [FirstMatch(lib, EveryEvent(b), event).value] + [];
  }

  /** Two scripts, no budget: the first body emits an event, and the second clause gets no outcome. */
  lemma BudgetStopsSibling<W>(lib: NumberLib, cfg: CascadeConfig, event: FieldMap, emitted: FieldMap, st: State<W>,
      a: string, b: string)
    requires Fresh(cfg, st) && cfg.budget == 0 && cfg.maxDepth > 0
    ensures var lua := (w: W, clause: Clause, bindings: FieldBindings) => (w, Ok([emitted]));
      var r := Dispatch(ScriptEnv([EveryEvent(a), EveryEvent(b)], lib, lua), cfg, event, st);
      && r.matched == st.matched + 2
      && r.outcomes == [ClauseOutcome(a, SYNTHETIC_CLAUSE, map[], Ok([emitted])), Synthetic(CascadeBudget(0, 1))]
      && Executions(r.outcomes) == 1
  {
    var lua := (w: W, clause: Clause, bindings: FieldBindings) => (w, Ok([emitted]));
    var scripts := [EveryEvent(a), EveryEvent(b)];
    var env := ScriptEnv(scripts, lib, lua);
    var m := ClauseMatch(EveryEvent(a), SYNTHETIC_CLAUSE, map[]);
    var matches := env.matching(event);
    BothMatch(lib, a, b, event);
    var sig := env.signature(event);
    var entered := st.Enter([], event, Runs).(visited := st.visited + {sig}, matched := st.matched + |matches|);
    UnfoldDispatch(env, cfg, event, st, [], matches, entered);
    StopsAtOnce(env, cfg, matches, entered, [event]);
    hide MatchAll, EveryEvent, RunMatches, DispatchInner, Executions, Cuts;
    assert Execute(env, m, entered.world).2 == [emitted];
    PushAccounts(entered, Execute(env, m, entered.world).1);
    PushAccounts(Executed(env, m, entered), Synthetic(CascadeBudget(0, 1)));
  }

  /** With no budget, the first body that emits ends the work of its event. */
  lemma StopsAtOnce<W>(env: Env<W>, cfg: CascadeConfig, matches: seq<ClauseMatch>, st: State<W>, path: seq<FieldMap>)
    requires matches != [] && st.budget == 0
    ensures Execute(env, matches[0], st.world).2 != [] ==>
      RunMatches(env, cfg, matches, st, path)
      == Executed(env, matches[0], st).Push(Synthetic(CascadeBudget(cfg.budget, |path|)))
  {
    hide RunMatches, RunEmissions, Execute;
    var emissions := Execute(env, matches[0], st.world).2;
    UnfoldMatches(env, cfg, matches, st, path);
    if emissions != [] {
      UnfoldFirst(env, cfg, emissions, Executed(env, matches[0], st), path);
    }
  }
}
