/** The whole lifespan: startup, serving, and the ladder of finally blocks. */
module Lifecycle {
  import opened Prelude
  import opened Registry
  import opened Effects
  import opened RuntimeSetup
  import Resources

  type Resource = Resources.Resource

  /** The captured arguments of `build_lifespan`. */
  datatype Config = Config(
    runtime: Option<Runtime>,
    hasPlan: bool,
    startupHealthcheck: bool,
    requireAuthProvider: bool,
    customLifespan: bool
  )

  const EMPTY_RUNTIME := Runtime(0, {}, {}, [], false)

  datatype AppState = AppState(core: Resources.State, serviceRuntime: Option<Runtime>, authProvider: bool)

  /**
   * An outcome is the propagating error followed by its context chain, latest
   * first; a normal end is the empty sequence.
   */
  type Outcome = seq<Error>

  function Chain(failure: Option<nat>): Outcome {
    if failure.Some? then [Raised(failure.value)] else []
  }

  function Logged(st: AppState, e: Event): AppState {
    st.(core := st.core.(trace := st.core.trace + [e]))
  }

  /** Runtime assembly or check, and the auth provider check. */
  function Prepare(script: Script, cfg: Config, st: AppState): (AppState, Option<Runtime>, Outcome) {
    var (st1, runtime, error) := Connect(script, cfg, st);
    if error == [] && cfg.requireAuthProvider && !st1.authProvider
    then (st1, runtime, [NoAuthProvider])
    else (st1, runtime, error)
  }

  function Connect(script: Script, cfg: Config, st: AppState): (AppState, Option<Runtime>, Outcome) {
    if cfg.runtime.None? then
      var result := if cfg.hasPlan then script.assemble(st.core.trace) else Ok(EMPTY_RUNTIME);
      var st1 := Logged(st, RuntimeAssembled(result));
      match result
      case Err(e) => (st1, None, [Raised(e)])
      case Ok(runtime) =>
        var refused := ConfigureError(st1.core.specs, runtime);
        if refused.Some? then (st1, Some(runtime), [refused.value])
        else
          (AppState(st1.core.(specs := st1.core.specs + RuntimeSpecs(runtime)),
                    Some(runtime), st1.authProvider || runtime.keycloak),
           Some(runtime), [])
    else if cfg.startupHealthcheck then
      var failure := script.checkRuntime(st.core.trace);
      (Logged(st, RuntimeChecked(failure)), cfg.runtime, Chain(failure))
    else (st, cfg.runtime, [])
  }

  /** The custom lifespan around the time during which requests are served. */
  function Body(script: Script, cfg: Config, t: Trace): (Trace, Outcome) {
    if !cfg.customLifespan then
      var served := script.serve(t);
      (t + [Served(served)], Chain(served))
    else
      var entered := script.enter(t);
      var t1 := t + [Entered(entered)];
      if entered.Some? then (t1, Chain(entered))
      else
        var served := script.serve(t1);
        var t2 := t1 + [Served(served)];
        var exit := script.exit(t2);
        (t2 + [Exited(exit)],
         match exit
         case Raises(e) => [Raised(e)] + Chain(served)
         case Returns(suppress) => if suppress then [] else Chain(served))
  }

  /** The `try` block after the preparation. */
  function Serve(script: Script, cfg: Config, resources: seq<Resource>, st: AppState): (AppState, Outcome) {
    var (core1, error) := Resources.Started(script, resources, st.core);
    var st1 := st.(core := core1);
    if error.Some? then (st1, [error.value])
    else
      var (t2, failed) := if cfg.startupHealthcheck
                          then Resources.ResourcesCheck(script, resources, core1.trace)
                          else (core1.trace, None);
      if failed.Some? then (st1.(core := core1.(trace := t2)), [failed.value])
      else
        var (t3, outcome) := Body(script, cfg, t2);
        (st1.(core := core1.(trace := t3)), outcome)
  }

  function TryBlock(script: Script, cfg: Config, resources: seq<Resource>, st: AppState)
      : (AppState, Option<Runtime>, Outcome) {
    var (st1, runtime, error) := Prepare(script, cfg, st);
    if error != [] then (st1, runtime, error)
    else
      var (st2, outcome) := Serve(script, cfg, resources, st1);
      (st2, runtime, outcome)
  }

  /** An error raised, if any, while `inFlight` is propagating. */
  function OnTop(error: Option<Error>, inFlight: Outcome): Outcome {
    if error.Some? then [error.value] + inFlight else inFlight
  }

  function RaisedBy(failure: Option<nat>): Option<Error> {
    if failure.Some? then Some(Raised(failure.value)) else None
  }

  /**
   * The lifespan.  A runtime-close error takes precedence over the group of
   * resource-close errors, and that over the error of the body; what loses
   * stays in the context chain.
   */
  function Lifespan(script: Script, cfg: Config, resources: seq<Resource>, st: AppState): (AppState, Outcome) {
    var (st1, runtime, body) := TryBlock(script, cfg, resources, st);
    var core2 := Resources.CloseAll(script, resources, st1.core);
    Resources.CloseAllShape(script, resources, st1.core);
    var outcome := OnTop(Resources.GroupOf(st1.core.trace, core2.trace), body);
    var st2 := st1.(core := core2);
    if runtime.None? then (st2, outcome)
    else
      var failure := script.closeRuntime(core2.trace);
      (Logged(st2, RuntimeClosed(runtime.value.id, failure)), OnTop(RaisedBy(failure), outcome))
  }

  // ------------------------------------------------------------ the method

  class ManagedLifespan {
    const app: Application
    const resources: Resources.ResourceRegistry
    const cfg: Config

    constructor (app: Application, resources: Resources.ResourceRegistry, cfg: Config)
      ensures this.app == app && this.resources == resources && this.cfg == cfg
    {
      this.app := app;
      this.resources := resources;
      this.cfg := cfg;
    }

    ghost predicate Valid()
      reads this, app, resources, resources.readiness
    {
      && resources.Valid()
      && app.readiness == resources.readiness
      && app.world == resources.world
      && (forall t :: app.world.script.assemble(t).Ok? ==> ServiceNames(app.world.script.assemble(t).value))
    }

    ghost function Current(): AppState
      reads this, app, resources, resources.readiness, resources.world
    {
      AppState(resources.Current(), app.serviceRuntime, app.authProvider)
    }

    method Run() returns (outcome: Outcome)
      requires Valid()
      modifies app, resources`instances, app.readiness, app.world
      ensures Valid() && resources.instances == map[]
      ensures (Current(), outcome)
           == Lifespan(app.world.script, cfg, resources.resources, old(Current()))
    {
      var runtime: Option<Runtime>;
      runtime, outcome := PrepareRuntime();
      if outcome == [] {
        outcome := ServeRequests();
      }
      // finally: the resources, then (in a nested finally) the runtime
      ghost var st1 := Current();
      var closing := resources.Close();
      Resources.CloseAllShape(app.world.script, resources.resources, st1.core);
      if closing.Some? {
        outcome := [closing.value] + outcome;
      }
      if runtime.Some? {
        var failure := app.world.script.closeRuntime(app.world.trace);
        app.world.Record(RuntimeClosed(runtime.value.id, failure));
        if failure.Some? {
          outcome := [Raised(failure.value)] + outcome;
        }
      }
    }

    method PrepareRuntime() returns (runtime: Option<Runtime>, outcome: Outcome)
      requires Valid()
      modifies app, app.readiness, app.world
      ensures Valid()
      ensures (Current(), runtime, outcome) == Prepare(app.world.script, cfg, old(Current()))
    {
      var script, world := app.world.script, app.world;
      runtime, outcome := cfg.runtime, [];
      if runtime.None? {
        var result := if cfg.hasPlan then script.assemble(world.trace) else Ok(EMPTY_RUNTIME);
        world.Record(RuntimeAssembled(result));
        match result
        case Err(e) =>
          return None, [Raised(e)];
        case Ok(assembled) =>
          runtime := Some(assembled);
          var refused := app.Configure(assembled);
          if refused.Some? {
            return runtime, [refused.value];
          }
      } else if cfg.startupHealthcheck {
        var failure := script.checkRuntime(world.trace);
        world.Record(RuntimeChecked(failure));
        if failure.Some? {
          return runtime, [Raised(failure.value)];
        }
      }
      if cfg.requireAuthProvider && !app.authProvider {
        return runtime, [NoAuthProvider];
      }
    }

    method ServeRequests() returns (outcome: Outcome)
      requires Valid()
      modifies resources`instances, app.readiness, app.world
      ensures Valid()
      ensures (Current(), outcome)
           == Serve(app.world.script, cfg, resources.resources, old(Current()))
    {
      var error := resources.Start();
      if error.Some? {
        return [error.value];
      }
      if cfg.startupHealthcheck {
        var failed := resources.CheckStartup();
        if failed.Some? {
          return [failed.value];
        }
      }
      outcome := RunBody();
    }

    method RunBody() returns (outcome: Outcome)
      modifies app.world
      ensures (app.world.trace, outcome) == Body(app.world.script, cfg, old(app.world.trace))
    {
      var script, world := app.world.script, app.world;
      if cfg.customLifespan {
        var entered := script.enter(world.trace);
        world.Record(Entered(entered));
        if entered.Some? {
          return [Raised(entered.value)];
        }
      }
      var served := script.serve(world.trace);
      world.Record(Served(served));
      outcome := Chain(served);
      if cfg.customLifespan {
        var exit := script.exit(world.trace);
        world.Record(Exited(exit));
        match exit
        case Raises(e) => outcome := [Raised(e)] + outcome;
        case Returns(suppress) => if suppress { outcome := []; }
      }
    }
  }
}
