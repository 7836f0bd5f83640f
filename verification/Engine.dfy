/** The engine's dispatch as it is written (`crates/luaml/src/lib.rs`). */
module Engine {
  import opened Wrappers
  import opened Values
  import opened Signatures
  import opened Clauses
  import opened Registry
  import opened Cascade

  /** Per-dispatch-tree state: the active events' signatures and the remaining emission budget. */
  class CascadeContext {
    const config: CascadeConfig
    var visited: set<EventSig>
    var budgetRemaining: nat

    constructor (config: CascadeConfig)
      ensures this.config == config && visited == {} && budgetRemaining == config.budget
    {
      this.config := config;
      visited := {};
      budgetRemaining := config.budget;
    }

    /** False if the event is already on the active stack. */
    method MarkVisited(sig: EventSig) returns (inserted: bool)
      modifies this`visited
      ensures inserted <==> sig !in old(visited)
      ensures visited == old(visited) + {sig}
    {
      inserted := sig !in visited;
      visited := visited + {sig};
    }

    method UnmarkVisited(sig: EventSig)
      modifies this`visited
      ensures visited == old(visited) - {sig}
    {
      visited := visited - {sig};
    }
  }

  class LuamlEngine<W> {
    const registry: ScriptRegistry
    const lib: NumberLib
    const lua: (W, Clause, FieldBindings) -> (W, BodyResult)
    var cascadeConfig: CascadeConfig
    var world: W
    var dispatches: nat
    var matched: nat
    var cascadeDepthMax: nat
    var cascadesEmitted: nat
    var lastErrorPerScript: map<string, ClauseError>
    ghost var log: seq<Entry>

    constructor (registry: ScriptRegistry, lib: NumberLib, lua: (W, Clause, FieldBindings) -> (W, BodyResult), world: W)
      ensures this.registry == registry && this.lib == lib && this.lua == lua && this.world == world
      ensures cascadeConfig == CascadeConfig(32, 256)
      ensures dispatches == matched == cascadeDepthMax == cascadesEmitted == 0 && lastErrorPerScript == map[]
    {
      this.registry := registry;
      this.lib := lib;
      this.lua := lua;
      this.world := world;
      cascadeConfig := CascadeConfig(32, 256);
      dispatches, matched, cascadeDepthMax, cascadesEmitted := 0, 0, 0, 0;
      lastErrorPerScript := map[];
      log := [];
    }

    method SetCascadeConfig(cfg: CascadeConfig)
      modifies this`cascadeConfig
      ensures cascadeConfig == cfg
    {
      cascadeConfig := cfg;
    }

    ghost function TheEnv(): Env<W>
      reads registry
    {
      ScriptEnv(registry.scripts, lib, lua)
    }

    /** The state of a dispatch tree, with `outcomes` pushed so far. */
    ghost function Snapshot(ctx: CascadeContext, outcomes: seq<ClauseOutcome>): State<W>
      reads this, ctx
    {
      State(world, ctx.visited, ctx.budgetRemaining, outcomes, matched, cascadesEmitted, cascadeDepthMax,
        lastErrorPerScript, log)
    }

    /** The state in which a dispatch of this engine begins. */
    ghost function Start(): State<W>
      reads this
    {
      State(world, {}, cascadeConfig.budget, [], matched, cascadesEmitted, cascadeDepthMax, lastErrorPerScript, [])
    }

    method ExecuteMatched(m: ClauseMatch) returns (outcome: ClauseOutcome, emissions: seq<FieldMap>)
      modifies this`world, this`lastErrorPerScript
      ensures (world, outcome, emissions) == Execute(TheEnv(), m, old(world))
      ensures lastErrorPerScript == if outcome.result.Err?
        then old(lastErrorPerScript)[outcome.scriptPath := outcome.result.error] else old(lastErrorPerScript)
    {
      var (w, result) := lua(world, m.clause, m.bindings);
      world := w;
      match result {
        case Ok(events) =>
          emissions := events;
          outcome := ClauseOutcome(m.script.sourcePath, m.clause, m.bindings, Ok(events));
        case Err(message) =>
          emissions := [];
          outcome := ClauseOutcome(m.script.sourcePath, m.clause, m.bindings, Err(Body(message)));
          lastErrorPerScript := lastErrorPerScript[m.script.sourcePath := Body(message)];
      }
    }

    method FindMatches(event: FieldMap) returns (matches: seq<ClauseMatch>)
      ensures matches == TheEnv().matching(event)
    {
      matches := registry.MatchClauses(lib, event);
    }

    method Sign(event: FieldMap) returns (sig: EventSig)
      ensures sig == TheEnv().signature(event)
    {
      sig := EventSignature(event);
    }

    /** The checks at the top of `dispatch_inner`: an event that may not run leaves one outcome. */
    method Admit(event: FieldMap, ctx: CascadeContext, before: seq<ClauseOutcome>, depth: nat,
        ghost path: seq<FieldMap>)
      returns (outcomes: seq<ClauseOutcome>, sig: EventSig, admitted: bool)
      requires depth == |path|
      modifies this`cascadeDepthMax, this`log, ctx`visited
      ensures sig == TheEnv().signature(event)
      ensures admitted <==> depth < ctx.config.maxDepth && sig !in old(ctx.visited)
      ensures admitted ==> outcomes == before
      ensures admitted ==>
        Snapshot(ctx, before) ==
          old(Snapshot(ctx, before)).Enter(path, event, Runs).(visited := old(ctx.visited) + {sig})
      ensures !admitted ==>
        Snapshot(ctx, outcomes) == DispatchInner(TheEnv(), ctx.config, event, old(Snapshot(ctx, before)), path)
    {
      if cascadeDepthMax < depth {
        cascadeDepthMax := depth;
      }
      sig := Sign(event);
      if depth >= ctx.config.maxDepth {
        log := log + [Entry(path, event, ctx.visited, TooDeep)];
        return before + [Synthetic(CascadeDepth(depth, ctx.config.maxDepth))], sig, false;
      }
      ghost var visited := ctx.visited;
      admitted := ctx.MarkVisited(sig);
      if !admitted {
        assert ctx.visited == visited;
        log := log + [Entry(path, event, visited, Cycle)];
        return before + [Synthetic(CascadeCycle(depth))], sig, false;
      }
      log := log + [Entry(path, event, visited, Runs)];
      return before, sig, true;
    }

    /** `dispatch_inner`. */
    method RunInner(event: FieldMap, ctx: CascadeContext, before: seq<ClauseOutcome>, depth: nat,
        ghost path: seq<FieldMap>)
      returns (outcomes: seq<ClauseOutcome>)
      requires depth == |path|
      modifies this`world, this`matched, this`cascadeDepthMax, this`cascadesEmitted, this`lastErrorPerScript,
        this`log, ctx
      ensures Snapshot(ctx, outcomes) == DispatchInner(TheEnv(), ctx.config, event, old(Snapshot(ctx, before)), path)
      decreases ctx.budgetRemaining, 2
    {
      var sig, admitted;
      outcomes, sig, admitted := Admit(event, ctx, before, depth, path);
      if !admitted {
        return;
      }
      var matches := FindMatches(event);
      matched := matched + |matches|;
      UnfoldDispatch(TheEnv(), ctx.config, event, old(Snapshot(ctx, before)), path, matches, Snapshot(ctx, before));
      outcomes := RunMatched(matches, ctx, outcomes, depth, path + [event]);
      ctx.UnmarkVisited(sig);
    }

    /** The loop over the matched clauses. */
    method RunMatched(matches: seq<ClauseMatch>, ctx: CascadeContext, before: seq<ClauseOutcome>, depth: nat,
        ghost path: seq<FieldMap>)
      returns (outcomes: seq<ClauseOutcome>)
      requires depth + 1 == |path|
      modifies this`world, this`matched, this`cascadeDepthMax, this`cascadesEmitted, this`lastErrorPerScript,
        this`log, ctx
      ensures Snapshot(ctx, outcomes) == RunMatches(TheEnv(), ctx.config, matches, old(Snapshot(ctx, before)), path)
      decreases ctx.budgetRemaining, 1
    {
      hide RunMatches, RunEmissions;
      outcomes := before;
      assert matches[0..] == matches;
      for i := 0 to |matches|
        invariant RunMatches(TheEnv(), ctx.config, matches[i..], Snapshot(ctx, outcomes), path)
               == RunMatches(TheEnv(), ctx.config, matches, old(Snapshot(ctx, before)), path)
        invariant ctx.budgetRemaining <= old(ctx.budgetRemaining)
      {
        assert matches[i..][0] == matches[i] && matches[i..][1..] == matches[i + 1..];
        ghost var st := Snapshot(ctx, outcomes);
        UnfoldMatches(TheEnv(), ctx.config, matches[i..], st, path);
        var outcome, emissions := ExecuteMatched(matches[i]);
        outcomes := outcomes + [outcome];
        assert Snapshot(ctx, outcomes) == Executed(TheEnv(), matches[i], st);
        var exhausted;
        outcomes, exhausted := RunEmitted(emissions, ctx, outcomes, depth, path);
        if exhausted {
          return;
        }
      }
      assert matches[|matches|..] == [];
      NothingLeft(TheEnv(), ctx.config, Snapshot(ctx, outcomes), path);
    }

    /** Pays for one emission and dispatches it. */
    method SpendOn(event: FieldMap, ctx: CascadeContext, before: seq<ClauseOutcome>, depth: nat,
        ghost path: seq<FieldMap>)
      returns (outcomes: seq<ClauseOutcome>)
      requires depth + 1 == |path| && ctx.budgetRemaining > 0
      modifies this`world, this`matched, this`cascadeDepthMax, this`cascadesEmitted, this`lastErrorPerScript,
        this`log, ctx
      ensures var st := old(Snapshot(ctx, before));
        Snapshot(ctx, outcomes) == DispatchInner(TheEnv(), ctx.config, event,
          st.(budget := st.budget - 1, emitted := st.emitted + 1), path)
      ensures ctx.budgetRemaining < old(ctx.budgetRemaining)
      decreases ctx.budgetRemaining - 1, 3
    {
      hide DispatchInner;
      ctx.budgetRemaining := ctx.budgetRemaining - 1;
      cascadesEmitted := cascadesEmitted + 1;
      outcomes := RunInner(event, ctx, before, depth + 1, path);
    }

    /** The loop over the events that one clause emitted; also tells whether the budget ended it. */
    method RunEmitted(emissions: seq<FieldMap>, ctx: CascadeContext, before: seq<ClauseOutcome>, depth: nat,
        ghost path: seq<FieldMap>)
      returns (outcomes: seq<ClauseOutcome>, exhausted: bool)
      requires depth + 1 == |path|
      modifies this`world, this`matched, this`cascadeDepthMax, this`cascadesEmitted, this`lastErrorPerScript,
        this`log, ctx
      ensures (Snapshot(ctx, outcomes), exhausted) ==
        RunEmissions(TheEnv(), ctx.config, emissions, old(Snapshot(ctx, before)), path)
      decreases ctx.budgetRemaining, 0
    {
      hide RunEmissions, DispatchInner;
      outcomes := before;
      assert emissions[0..] == emissions;
      for i := 0 to |emissions|
        invariant RunEmissions(TheEnv(), ctx.config, emissions[i..], Snapshot(ctx, outcomes), path)
               == RunEmissions(TheEnv(), ctx.config, emissions, old(Snapshot(ctx, before)), path)
        invariant ctx.budgetRemaining <= old(ctx.budgetRemaining)
      {
        UnfoldEmissions(TheEnv(), ctx.config, emissions, i, Snapshot(ctx, outcomes), path);
        if ctx.budgetRemaining == 0 {
          return outcomes + [Synthetic(CascadeBudget(ctx.config.budget, depth + 1))], true;
        }
        outcomes := SpendOn(emissions[i], ctx, outcomes, depth, path);
      }
      assert emissions[|emissions|..] == [];
      NothingLeft(TheEnv(), ctx.config, Snapshot(ctx, outcomes), path);
      return outcomes, false;
    }

    /** Dispatches an event under a fresh context; never fails. */
    method RunDispatch(event: FieldMap) returns (outcomes: seq<ClauseOutcome>)
      modifies this
      ensures var r := Cascade.Dispatch(TheEnv(), old(cascadeConfig), event, old(Start()));
        && outcomes == r.outcomes && world == r.world && matched == r.matched && log == r.log
        && cascadesEmitted == r.emitted && cascadeDepthMax == r.depthMax && lastErrorPerScript == r.lastError
      ensures dispatches == old(dispatches) + 1 && cascadeConfig == old(cascadeConfig)
      ensures |outcomes| <= (cascadeConfig.budget + 1) * (|registry.scripts| + 1)
      ensures cascadesEmitted - old(cascadesEmitted) <= cascadeConfig.budget
      ensures Clean(outcomes) ==>
        exists u :: Unlimited(TheEnv(), event, old(world), [], cascadeConfig.maxDepth) == Some(u)
          && outcomes == u.outcomes && world == u.world
    {
      hide Unlimited, DispatchInner, Clean, Faithful;
      dispatches := dispatches + 1;
      log := [];
      var ctx := new CascadeContext(cascadeConfig);
      ghost var st := Snapshot(ctx, []);
      outcomes := RunInner(event, ctx, [], 0, []);
      ScriptEnvIsFaithful(registry.scripts, lib, lua);
      DispatchBill(TheEnv(), cascadeConfig, event, st, |registry.scripts|);
      LimitsAreTransparent(TheEnv(), cascadeConfig, event, st, |registry.scripts|);
    }
  }
}
