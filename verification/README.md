# Verified model of the fastapi-core application kernel

fastapi-core builds an application out of managed resources, a service
runtime, readiness checks, domain modules with transport policies, and a few
protocols around them.  This project models that kernel in Dafny and proves
what its documentation and tests promise: for every behaviour of the user's
callbacks, every run and every interleaving.

`dafny verify dfyconfig.toml` checks the whole project.

## How the model is laid out

| file | subject |
|---|---|
| `Prelude.dfy` | options, results, reversal, Python white space |
| `Registry.dfy` | the readiness registry as an insertion-ordered dictionary |
| `Effects.dfy` | the outside world: an event history, and scripts that answer every callback as a function of the whole history |
| `Resources.dfy` | ordered `start` with rollback, reverse `close`, guarded unregistration |
| `Restart.dfy` | starting a registry that still holds instances |
| `ResourceChecks.dfy` | which checks `start` registers, the startup check asks about, and `close` removes |
| `ConcurrentClose.dfy` | any number of interleaved `close()` tasks |
| `RuntimeSetup.dfy` | all-or-nothing registration of a service runtime |
| `Lifecycle.dfy`, `LifespanProperties.dfy` | the lifespan's ladder of `finally` blocks, and what every run of it keeps |
| `History.dfy` | the history of a run against the outside world: every event is the world's answer |
| `Streaming.dfy` | the close-once lock, and the streaming response on an event loop |
| `Readiness.dfy`, `Health.dfy` | running and merging checks; the endpoint that computes the verdict again |
| `Transport.dfy`, `Assembly.dfy` | the policy algebra, the OpenAPI patch, assembly validation, policy recording |
| `AccessLog.dfy`, `ExceptionMapping.dfy` | middleware over message traces; most-specific selection |
| `Environment.dfy`, `Csv.dfy` | environment scopes around cached loaders; the nested list parser |

Code that changes state is a class or a method with loops, and each such
method equals a specification function of the old state (`Start` is
`Started`, `Close` is `CloseAll`, `Run` is `Lifespan`, and so on).  The
theorems are lemmas about those functions, stated in terms of what goes in and
what comes out: the script's answers, the answers of the checks, the actions on
the event loop, the declared policies.  A `Script` answers each callback as an
arbitrary function of the history, so a statement over all scripts is a
statement over all failures of all callbacks.

## What is assumed about code that is not modelled

- `async_check_all_services` yields one status per check, in order; a status
  is ok iff its check did not raise, and required by membership; it raises
  with the full result iff a required check failed
  (fastapi_core/readiness.py:178-192).
- asyncio runs ready callbacks in FIFO order and acquiring a free lock does
  not yield; `shield`, `Task.cancel` and done callbacks behave as in CPython.
- A method resolution order starts with the class, has no repetition and
  lists every class before its bases.
- `functools.partial` over a partial is flattened.
- Service names are non-blank and distinct; HTTP methods of routes are upper
  case; header names are lower case; `uuid4().hex` is 32 hexadecimal digits.
- Factories, closers and custom lifespans do not themselves write to the
  readiness registry, neither while `start` or `close` is under way nor while
  requests are served; `ResourceChecks.CloseKeepsForeign` and
  `ResourceChecks.AddedSurvive` say what `close` does when something else was
  registered, replaced or removed in between.

## What turned out to hold only under a condition

- A health check that is itself a `functools.partial` is flattened when the
  resource is bound to it, so `close` never recognises and never unregisters
  it; and a rollback drops a pre-existing partial over the same health check
  and object.  `Resources.RestoresIff` gives the exact condition.
- `start` on a registry that still holds instances overwrites them and they
  are never closed.  `Restart.RestartSafeIff` gives the exact condition, and
  by `Restart.StartedIsUnsafe` no started registry with a resource meets it.
- An application that assembles its own runtime leaves that runtime's checks
  registered.  `LifespanProperties.SecondEntryCollidesIff` says exactly when
  the next entry is refused for taken names.
- Names with dots break the endpoint's lookup.  `Health.ResolvesIff` says
  exactly when nested names lead back to their check, and
  `Health.VerdictsAgreeIff` exactly when the endpoint's verdict is the
  registry's; dot-free names suffice for both.
- One `close()` may return while a closer started by another task is still
  running: with at least two calls and some instance that has a closer, and
  in no other case (`ConcurrentClose.ReturnsEarlyIff`).
- A policy that sets `include_synthetic_422` to false while validation errors
  use 422 leaves that status undocumented
  (`Transport.RuntimeStatusDocumentedIff`).
- `validate_module_conflicts` accepts a list of policies for a field other
  than `responses` exactly if their merge does not depend on the order
  (`Transport.OrderFreeIff`).  Responses merge in any order exactly if the
  policies agree on the statuses they share
  (`Transport.ResponsesOrderFreeIff`); such policies are refused nevertheless
  exactly if two of them define different sets of statuses
  (`Transport.OrderFreeRefusedIff`).
- A direct write to the environment makes a cached configuration stale
  exactly if the write matters to the loader (`Environment.DirectWriteStaleIff`;
  `Environment.DirectWriteGoesStale` is a concrete program).

A remark on the FIFO assumption: `Streaming.UnfairLoopNeverCloses` shows a run
of a loop without it, which asyncio does not provide, that loses the close.

## Model

| member | source | states |
|---|---|---|
| Registry.ReadinessRegistry.Register | fastapi_core/readiness.py:102-109 | a blank name, a taken name or a non-positive timeout is refused in that order and leaves the registry alone; otherwise the spec is appended |
| Registry.ReadinessRegistry.Unregister | fastapi_core/readiness.py:112-113 | exactly the entry of that name goes, the order of the others stays, and an unknown name changes nothing |
| Registry.FindUnique | fastapi_core/readiness.py:103-109 | in a registry kept by these operations each spec is the one found under its own name |
| Resources.ResourceRegistry.Validate | fastapi_core/resources.py:170-188 | accepts iff every name is non-blank, not reserved and used once and every timeout is positive |
| Resources.ResourceRegistry.Create | fastapi_core/resources.py:153-167 | a registry holding no instance is built iff the resources are valid |
| Resources.ResourceRegistry.Start | fastapi_core/resources.py:195-218 | instances, readiness specs, history and error after `start` are those of the specification `Started`, rollback included |
| Resources.ResourceRegistry.CheckStartup | fastapi_core/resources.py:221-239 | asks exactly about the required resources with a health check, and does nothing if there is none |
| Resources.RequireFinds | fastapi_core/resources.py:241-242 | after a `start` that returned, `require` finds for each declared name, and for no other, the object its factory returned in this `start`; after a failed `start` and after `close` it finds nothing |
| Resources.ResourceRegistry.Close | fastapi_core/resources.py:245-267 | the new state is that of `CloseAll`, nothing stays stored, and it raises iff a failed closing was recorded, with all failures in close order |
| History.CloseRaises | fastapi_core/resources.py:245-285 | `close` raises iff some closer that it called raised, a resource's declared one or an instance's own `aclose` or `close`, and then one group of all their errors in close order |
| Resources.ResourceRegistry.PopAndClose | fastapi_core/resources.py:251-265 | one turn of the loop: the instance is no longer stored, one closing is recorded, and the check is unregistered under the guard even if the closer fails |
| Resources.ResourceRegistry.CloseResource | fastapi_core/resources.py:270-285 | the declared closer wins over `aclose`, that over `close`, and without any nothing is called |
| Resources.CloseReverses | fastapi_core/resources.py:245-267 | `close` closes each stored instance once, last created first, whatever fails |
| Resources.CloseAllShape | fastapi_core/resources.py:245-267 | `close` only closes: it appends closings to the history and drops exactly its own instances |
| Resources.StartLoopStores | fastapi_core/resources.py:195-212 | at whatever point the loop ends, what is stored is what was created, in creation order, and what was stored before under the names not reached |
| Resources.StartSuccessCreatesAll | fastapi_core/resources.py:195-212 | a `start` that returns has created every resource, in declaration order |
| Resources.StartStopConserves | fastapi_core/resources.py:195-267 | conservation: a complete or failing `start` and then `close` closes exactly what was created, each once, in reverse, and stores nothing |
| Resources.StartLoopHistory | fastapi_core/resources.py:197-212 | the loop fails exactly with the last event of its history: a factory's error, or the creation of a resource whose check name was taken; all before are creations |
| Resources.StartKeepsOriginalError | fastapi_core/resources.py:213-218 | `start` returns iff everything was created and nothing closed; otherwise it raises the error of the last event of its loop, the rollback's failures being only a note, and the rollback closed all that was created, in reverse |
| Restart.RestartLeaks | fastapi_core/resources.py:195-267 | after a complete or failing `start` on a registry that held instances, exactly the new instances and those not reached are closed |
| Restart.RestartSafeIff | fastapi_core/resources.py:197-218 | all formerly stored instances are still closed, for all factories, iff nothing was stored under a name up to the first taken check name |
| Restart.StartedIsUnsafe | fastapi_core/resources.py:197-218 | a registry that has started at least one resource never meets that condition |
| Resources.StartStopFrame | fastapi_core/resources.py:195-267 | `start` and `close` leave every readiness entry under a foreign name as it is |
| Resources.StartStopRestores | fastapi_core/resources.py:202-218 | under the condition, a complete or failing `start` and then `close` leaves the readiness specs exactly as before, order included |
| Resources.RestoresIff | fastapi_core/resources.py:256-265 | the readiness specs survive every start-and-stop, for all callbacks and histories, iff the resources are `Restorable` over them |
| Resources.StartRefusedIff | fastapi_core/resources.py:202-212 | no behaviour of the factories makes a registration fail iff the names of the resources' checks are free |
| ResourceChecks.StartRegisters | fastapi_core/resources.py:197-212 | a `start` that returns has appended exactly the checks of its resources, bound to their instances, in order, and all their names were free |
| ResourceChecks.RegisteredAsDeclared | fastapi_core/resources.py:203-212 | each such entry has the resource's requiredness, timeout, redaction and adapter, and its health check bound to the new instance |
| ResourceChecks.CloseKeepsForeign | fastapi_core/resources.py:256-265 | whatever the registry has become, `close` removes exactly the resources' own checks and keeps foreign and replaced entries, also under a resource's name |
| ResourceChecks.AddedSurvive | fastapi_core/resources.py:195-267 | `start`, registrations from outside, and `close` leave what was registered before and from outside, in order |
| ResourceChecks.StartupCheckVerdict | fastapi_core/resources.py:221-239 | the startup check asks exactly the checks of the required resources on the instances just created, and fails iff one of them gives a bad answer |
| ConcurrentClose.StepKeepsInv | fastapi_core/resources.py:247-265 | each step of each task keeps: stored instances are a prefix of the creation order, each popped one is awaited by one task or done with, and the registry has lost exactly the checks of those done with |
| ConcurrentClose.PopsReverseCreation | fastapi_core/resources.py:245-267 | under any interleaving of any number of `close()` tasks instances are popped in reverse creation order, each once, and all of them once a task has returned |
| ConcurrentClose.RegistryCleaned | fastapi_core/resources.py:252-265 | at every point of every interleaving the registry is the original one without the own checks of the resources whose closers have ended |
| ConcurrentClose.InterleavingsAgree | fastapi_core/resources.py:245-267 | confluence: when all closers have ended, every interleaving leaves the registry that one sequential `close` leaves |
| ConcurrentClose.ReturnsEarlyIff | fastapi_core/resources.py:245-267 | with `n` calls some interleaving lets one return while a closer is at work iff `n` is at least two and some stored instance has a closer |
| RuntimeSetup.Application.Configure | fastapi_core/runtime.py:72-107 | all or nothing: refused for a missing check or a taken name, with registry and state untouched; else one spec per check is appended and the state is set |
| RuntimeSetup.ConfiguredLookups | fastapi_core/runtime.py:72-99 | afterwards each check is found under its service, required iff the service is, with redaction; every older entry is still found, and every selected service has a check |
| Lifecycle.ManagedLifespan.Run | fastapi_core/lifecycle.py:53-89 | state, history and outcome of the whole lifespan are those of the specification `Lifespan` |
| Lifecycle.ManagedLifespan.PrepareRuntime | fastapi_core/lifecycle.py:56-63 | assembles and configures a runtime, or checks the given one, and demands an auth provider |
| Lifecycle.ManagedLifespan.ServeRequests | fastapi_core/lifecycle.py:64-71 | starts the resources, checks them, and serves inside the custom lifespan |
| LifespanProperties.BodyBracket | fastapi_core/lifecycle.py:70-71 | the custom lifespan is left iff it was entered; the error of its exit is on top of the error of serving, which stays unless suppressed; nothing propagates iff nothing failed or what failed was suppressed |
| LifespanProperties.LifespanConserves | fastapi_core/lifecycle.py:51-89 | in every run the history is work, then closings of exactly the created instances in reverse order, then one runtime close iff there is a runtime; the runtime-close error is the head of the outcome, the resource group next, the body's errors stay below, and the outcome is the body's iff neither close raised |
| History.LifespanFaithful | fastapi_core/lifecycle.py:53-89 | every event of a run is the outside world's answer at that point, none changed or made up; each instance is closed by its declared closer, else its `aclose`, else its `close` |
| History.ChecksGateServing | fastapi_core/lifecycle.py:56-71 | requests are served only after everything was created, every check that the configuration asks for passed and a demanded auth provider is there; a startup check that raised is what the run ends with |
| LifespanProperties.ClosedExactlyOnce | fastapi_core/lifecycle.py:51-89 | counted over the whole run, each created instance is closed once and nothing else is, although `close` may be called twice |
| History.ClosersReported | fastapi_core/lifecycle.py:71-89 | if any closer raises in a run, all errors that closers raise, in order, are one group, which is raised or kept in the context chain, or noted on the error of `start` |
| LifespanProperties.LifespanRestores | fastapi_core/lifecycle.py:51-89 | a run leaves the readiness specs as they were, plus the checks of a runtime that it assembled and configured itself |
| LifespanProperties.SecondEntryCollidesIff | fastapi_core/lifecycle.py:57-59 | the next entry is refused for taken names iff its complete runtime has a check of a name registered before or by the first runtime; nothing has then been created |
| CloseOnce.StepKeepsInv | fastapi_core/streaming.py:60-68 | every step of every caller keeps the invariant of lock, flag and call count |
| CloseOnce.ClosesOnce | fastapi_core/streaming.py:60-68 | for any number of callers in any order the closer is invoked at most once, and no caller returns before it has ended |
| Streaming.CloseCallable | fastapi_core/streaming.py:48-57 | the declared closer wins over `aclose`, that over `close`; nothing is called iff there is none of them |
| Streaming.StepKeepsInv | fastapi_core/streaming.py:71-97 | every loop iteration keeps: due wake-ups are queued once each, and the closing task's first step precedes everything but foreign callbacks |
| Streaming.ClosesExactlyOnce | fastapi_core/streaming.py:71-97 | with a FIFO queue, for every body and any cancellations of the response's task, a finished `__call__` has invoked the closer once and the closer has ended |
| Streaming.OutcomePreserved | fastapi_core/streaming.py:71-97 | body and closer end once each in the run; the error with which the body ends is the one raised, with the close's error as its note; the close ends well iff the closer does and no cancellation comes; the closer's failure prevails unless a cancellation comes after it |
| Streaming.NoLostWakeup | fastapi_core/streaming.py:71-97 | with an empty queue the response is finished or waits for its body or for the closer |
| Readiness.StructuredResult | fastapi_core/readiness.py:53-71 | one entry per child, under the parent's name and with its requiredness, with the child's verdict and error; ok iff the result and all children are |
| Readiness.MergeStructuredResults | fastapi_core/readiness.py:74-92 | the loop yields the concatenation of the segments and their conjunction |
| Readiness.SegmentKeepsVerdict | fastapi_core/readiness.py:79-88 | the entries that replace a service are not empty and keep its verdict and its requiredness, also with no children or with a failed parent of ok children |
| Readiness.MergeKeepsVerdicts | fastapi_core/readiness.py:74-92 | merging changes neither the conjunction nor whether a required entry fails |
| Readiness.MergedVerdict | fastapi_core/readiness.py:122-192 | the merged result is ok iff no check gives a bad answer, and holds a failing required entry iff a required check does |
| Readiness.StatusErrors | fastapi_core/readiness.py:150-176 | the error that a status carries, for each kind of bad answer, and none otherwise |
| Readiness.MergedLists | fastapi_core/readiness.py:53-92 | the merged result lists every child of a structured answer, healthy or not, unless there are none or they do not bear out its failure; then, as for other answers, the check itself |
| Readiness.RunClosures | fastapi_core/readiness.py:140-177 | in any completion order the closures leave the same `structured` map |
| Readiness.FirstRequiredFailure | fastapi_core/readiness.py:188-190 | the search finds the first failing required entry |
| Readiness.Check | fastapi_core/readiness.py:122-192 | raises the health error iff a required selected check gives a bad answer, with the first failing required entry; the result does not depend on the completion order |
| Health.BeforeDot | fastapi_core/readiness.py:119 | the longest dot-free prefix |
| Health.ResolvesIff | fastapi_core/readiness.py:116-119 | nested names resolve to their own check, for every child name, iff no registered name has a dot |
| Health.Respond | fastapi_core/routers/health.py:107-139 | fails its lookup iff some entry does not resolve; otherwise error with 503 iff a failing entry resolves to a required spec, degraded iff only optional ones, ok iff none fails |
| Health.ReadinessEndpoint | fastapi_core/routers/health.py:74-139 | with agreeing prefixes the status is error iff a required check gives a bad answer, degraded iff only optional ones do, ok iff none does; no checks is ok, and a timeout 503 |
| Health.RequirednessAgrees | fastapi_core/routers/health.py:110-128 | with agreeing prefixes every entry of the merged result resolves to a spec of its own requiredness, so that the verdicts agree |
| Health.VerdictsAgreeIff | fastapi_core/routers/health.py:110-128 | registry and endpoint agree for all behaviours of the checks iff the registered prefixes agree |
| Health.DotFreePrefixesAgree | fastapi_core/readiness.py:116-119 | dot-free names satisfy that condition |
| Health.RedactionHides | fastapi_core/routers/health.py:23-38 | raw errors of failing checks that are to be redacted have no influence on the details |
| Health.DetailsShow | fastapi_core/routers/health.py:23-38 | a service's details show its own verdict, the requiredness of its check, and its error unless the failing check demands redaction; a failure without an error is shown as a timeout iff there is one |
| Transport.Resolve | fastapi_core/transport.py:95-115 | the loop over the contract fields yields the field-wise override |
| Transport.GetOverride | fastapi_core/transport.py:103-113 | every contract field of an override follows one rule: a set value wins, response maps are merged |
| Transport.OverrideAssociative | fastapi_core/transport.py:95-115 | resolution is associative |
| Transport.OverrideUnit | fastapi_core/transport.py:95-115 | the empty policy is its identity on both sides |
| Transport.OverrideValid | fastapi_core/transport.py:40-48 | overriding valid policies gives a valid policy |
| Transport.ValidateModuleConflicts | fastapi_core/transport.py:119-131 | accepts iff no two policies set a contract field to different values, and names a field that conflicts otherwise |
| Transport.MergeOrderFree | fastapi_core/transport.py:95-131 | accepted policies give the same contract when folded in any permutation |
| Transport.OrderFreeIff | fastapi_core/transport.py:95-131 | for any list of policies and any field but the responses, the order of merging is free iff the validation finds no conflict |
| Transport.ResponsesOrderFreeIff | fastapi_core/transport.py:106-109 | response maps merge in any order iff the policies agree on every status they share |
| Transport.OrderFreeRefusedIff | fastapi_core/transport.py:119-131 | policies whose responses merge in any order are refused for them iff two of them define different sets of statuses |
| Transport.EffectiveSettings | fastapi_core/transport.py:50-65 | a declared validation status or 422 switch wins over its default; effective statuses stay error codes |
| Transport.ResponseDefinitions | fastapi_core/transport.py:68-91 | declared definitions are kept, then come the validation status, the common statuses and the fallback, and nothing else is documented |
| Transport.OpenApi.Patch | fastapi_core/factory.py:178-197 | exactly the operations recorded with a policy are patched, in place, in any order |
| Transport.PatchIdempotent | fastapi_core/factory.py:183-195 | patching the cached schema again changes nothing, and other operations are never touched |
| Transport.RuntimeStatusDocumentedIff | fastapi_core/http.py:351-399 | the status used for validation errors is documented iff the policy does not drop the 422 that it uses |
| Assembly.ValidateRoutes | fastapi_core/factory.py:95-113 | accepts iff all (method, path) pairs and all operation IDs are different |
| Assembly.ValidateExtensionNames | fastapi_core/factory.py:117-143 | accepts iff resource, check and runtime names are all different and none is a planned service |
| Assembly.RegisterModuleChecks | fastapi_core/factory.py:261-262 | the loop registers the checks in order up to the first refusal |
| Assembly.CreationNeverCollides | fastapi_core/factory.py:261-285 | with accepted names the loop succeeds iff each check is registrable by itself, and an injected runtime is then refused for nothing but a missing check |
| Assembly.FirstLifespanNeverCollides | fastapi_core/factory.py:124-143 | on the first entry, with nothing registered from outside and planned services only, no registration fails on a taken name |
| Assembly.Application.RecordTransportPolicy | fastapi_core/factory.py:201-212 | exactly the router's API routes get the policy, and none without one |
| Assembly.Application.IncludeRouters | fastapi_core/factory.py:315-341 | the recorded table is that of the plan of inclusions: built-in, application and module routers |
| Assembly.PolicyIsolation | fastapi_core/factory.py:95-113 | with unique routes each route maps to the policy of its own inclusion |
| Assembly.RecordedTable | fastapi_core/factory.py:315-341 | a module's route is recorded iff the application or the module declares a policy, with the module's settings and definitions laid over the application's and the dependencies of both; an application's route iff it declares one; health and auth routes never |
| AccessLog.SetHeader | fastapi_core/http.py:81-84 | afterwards the header has this one value and all other headers are unchanged |
| AccessLog.CorrelationIdMiddleware.constructor | fastapi_core/http.py:68-79 | the ID is the incoming one iff that matches the pattern, and always matches it |
| AccessLog.CorrelationIdMiddleware.Send | fastapi_core/http.py:81-84 | response starts carry the ID once, everything else passes through unchanged |
| AccessLog.AccessLogMiddleware.WriteLog | fastapi_core/http.py:106-130 | writes at most once, never for a suppressed route |
| AccessLog.AccessLogMiddleware.SendWithAccessLog | fastapi_core/http.py:132-140 | the status is taken before the send, the record written only after a final body went out |
| AccessLog.AccessLogMiddleware.Call | fastapi_core/http.py:96-147 | over any sequence of messages, failing sends and final outcome the records are the expected ones and every delivered message has passed the correlation middleware |
| AccessLog.Expected | fastapi_core/http.py:96-147 | there is at most one record and it carries the request's correlation ID |
| AccessLog.LoggedIff | fastapi_core/http.py:106-147 | logged iff a final body went out or an exception escaped, unless the last matched route is a health route and those are not logged; that route is the one logged; the outcome is an error iff no final body went out or the status is at least 400 |
| AccessLog.LoggedStatus | fastapi_core/http.py:132-140 | the status is that of the last response start seen before logging, or 500 |
| AccessLog.CompletionFixesLog | fastapi_core/http.py:106-110 | nothing after completion, not even an exception, changes the log |
| ExceptionMapping.FromSpecs | fastapi_core/http.py:157-192 | accepts iff no class is listed twice and a fallback does not compete with a mapping of `Exception` |
| ExceptionMapping.SpecsOrderFree | fastapi_core/http.py:179-192 | every order of the specs is accepted or none is, and the tables are the same |
| ExceptionMapping.Resolve | fastapi_core/http.py:195-203 | the loop selects the first mapped class of the MRO, else the fallback |
| ExceptionMapping.SelectsMostSpecific | fastapi_core/http.py:195-203 | the class selected has no other mapped subclass among the exception's ancestors; the fallback is used if no ancestor is mapped |
| ExceptionMapping.FallbackReachableIff | fastapi_core/http.py:173-176 | a table with a fallback always resolves, and the fallback is reachable iff `Exception` is not mapped |
| Environment.ProcessEnvironment.TestEnvironment | fastapi_core/testing.py:117-136 | a scope behaves as specified even if setting a variable or the body raises |
| Environment.ProcessEnvironment.LoadConfig | fastapi_core/config.py:203-206 | a cached value is returned as it is; a loader that raises caches nothing |
| Environment.ScopeRestores | fastapi_core/testing.py:117-136 | leaving a scope restores every overridden variable, whatever the body did |
| Environment.ScopeInEffect | fastapi_core/testing.py:117-128 | the body of a scope sees every override, everything else as it was and nothing cached; if the set-up breaks off there is no body |
| Environment.OverridesUndone | fastapi_core/testing.py:119-133 | undoing a complete or broken-off set-up gives back the whole environment |
| Environment.LoadsAreFresh | fastapi_core/testing.py:117-136 | in any program of nested scopes, loads and failures every cached load equals a fresh one |
| Environment.DirectWriteStaleIff | fastapi_core/config.py:203-206 | after a direct write a load is stale iff something was cached and the write changes what is loaded |
| Csv.StripTrims | fastapi_core/config.py:40-42 | stripping cuts off exactly the white space around a text, keeps trimmed text, and gives nothing iff all is white space |
| Csv.SplitJoin | fastapi_core/config.py:42 | splitting inverts joining for parts without the separator |
| Csv.JoinSplit | fastapi_core/config.py:42 | splitting loses nothing: the parts, joined again, are the text |
| Csv.PartKept | fastapi_core/config.py:40-42 | wherever it stands, a part is kept, stripped, iff it is not blank |
| Csv.GroupKept | fastapi_core/config.py:194-199 | wherever it stands, a group is kept iff some part of it is not blank |
| Csv.ParsePrint | fastapi_core/config.py:188-200 | the nested parser inverts the canonical printing of every well-formed group list |
| Csv.ParseNormalizes | fastapi_core/config.py:188-200 | every parsed group is non-empty with trimmed, separator-free items, and parse-print-parse equals parse |

## Left out

- Service clients, Keycloak tokens and the auth router: thin wrappers over libraries that are not part of this model.
- FastAPI and Starlette routing, CORS, JSON rendering and OpenAPI generation: only the maps from (method, path) to responses and policies are kept; operations without a recorded policy and paths absent from the schema are as they come.
- Wall-clock timeouts, retries, threads: a factory, closer or check is a call that returns or raises; a synchronous closer that goes on in its thread after its awaiting task was cancelled is not distinguished from one that ended.
- Function-boundary logging, JSON formatting and masking: the decorators are transparent; error messages are reduced to which error it is.
- `_flatten_modules` and `_validate_error_mappers`: two further uniqueness loops, and name and type checks on constructor arguments, with nothing to add to those modelled.
- `build_runtime_plan`, `_build_healthcheck_policy`, `_diagnose_auth_configuration`: they translate configuration for libraries that are not part of this model.
- Pydantic validation beyond the list parsing, schemas, assertion helpers of the test kit.
- `create_error_renderer` and problem responses: one branch each.
- What exception handlers for bare `Exception` send outside the user middleware: only messages that pass through `AccessLogMiddleware` are spoken of.
- Streaming.ClosesExactlyOnce: `__call__` is the only caller of `_close_once` there, so its lock is free and does not yield (`CloseOnce` treats many callers); the response is a value that steps on an event loop rather than a class, because its promise is about interleavings; foreign code may cancel the response's own task but not the closing task, and the loop is not shut down in between.
- CloseOnce.ClosesOnce: a caller is not cancelled while it holds the lock; the closing task is shielded from that, and `Streaming` treats its cancellation.
- Resources.ResourceRegistry.CheckStartup: whether the check fails is the script's answer; `ResourceChecks.StartupCheckVerdict` ties it to the checks, and the lifespan keeps the answer arbitrary.
- Resources.ResourceRegistry.PopAndClose: gives the state after the turn; that the pop comes before the closer's await is visible in `ConcurrentClose`.
- LifespanProperties.LifespanRestores: nothing else writes to the readiness registry during the lifespan; writes between `start` and `close` are treated in `ResourceChecks`.
- ConcurrentClose.PopsReverseCreation: begins after `start` has returned; a `start` that still creates instances while `close` pops them is not modelled.
- LifespanProperties.LifespanConserves: the outcome keeps the chain of contexts of the lifespan's own levels, not the context links inside individual closer errors.
- LifespanProperties.ClosedExactlyOnce: a single entry; a second entry begins from the state that the first one left.
- Readiness.Check: the registry is not changed while checks are under way, and the overall timeout is a parameter.
- AccessLog.AccessLogMiddleware.Call: one HTTP request with fresh state; other scopes pass through untouched, and durations are left out.
- Environment.LoadsAreFresh: a loader is a function of the environment variables; files that it might also read are constant.
