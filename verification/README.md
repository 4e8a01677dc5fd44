# Verified models of HazelJS

HazelJS is a TypeScript framework for server applications. This project models, in Dafny, the parts
of it whose correctness does not show in any single function: the dependency-injection container,
the saga orchestrator, the module graph, the cron service, the ranking steps of retrieval, the
route tables, the prompt placeholder scanner and the translation trees. `dafny verify dfyconfig.toml`
checks everything.

Code that changes objects or arrays in place is a class or a loop here too, and each such method is
proved equal to a specification function on values; the theorems are about those functions. What each
operation computes is also stated without them, in terms of what was declared, registered or given.

**Container** (`ContainerState`, `ContainerFrame`, `ContainerCycles`, `ContainerOnce`, `ContainerPure`,
`ContainerTermination`, `ContainerOverflow`, `Container`, `ContainerFactories`). `ContainerState.Resolve`
says what one `resolve` does to the providers, the request maps, the in-progress flags and the resolution stacks, thrown
errors included. It takes a `depth`, the JavaScript call stack that is left; running out of it is
the error `StackOverflow`, so endless recursion is an outcome and termination is a theorem. A `log`
that the program does not have records which factories ran. On this rest: the frame and
clean-failure theorem, transparency of memoisation, build-once over every history, termination on
graphs whose cycles all pass through singletons, and exactly when no call stack is enough. The comment at
container.ts:153 speaks of a resolution stack per chain; the code hands it on only to the factory of a
class that it registers itself (container.ts:264), so cycle detection rests mostly on `isResolving`, and
the model follows the code. It also gives a configured `useValue` out for singletons only.

**Request handlers** (`RequestHandlers`, `RequestIsolation`). Route handlers interleave over one
container; each resolves under a fresh request id and clears it in its `finally`.
`RequestIsolation.HeldBy` follows a resolution step by step and says for which requests the instances
inside its value were built. packages/core/README.md:151 promises one instance per request for request scope;
hazel-module.ts:206-224 means a controller with such a dependency to be resolved per request but
registers it as a singleton, so it keeps the first request's instance; the model follows the code.

**Sagas** (`Sorting`, `SagaSteps`, `SagaRun`, `SagaRollback`, `SagaOrchestrator`). A run is cut at
its awaits into a state machine. One theorem is over every interleaving of any number of runs;
another drives one run to its end in an arbitrary world `W` that each call may change.

**Modules** (`Graphs`, `Collections`, `ModuleGraph`, `ModuleOrder`, `ModuleInit`). Modules are nodes of an
import graph; `U` is any finite set closed under imports. Which registrations throw is a parameter.

**Cron** (`CronState`, `CronEffects`, `Cron`). Timer ticks, completions of callbacks and control calls are separate
events in any order. An execution of `execute` is two steps, before and after its await. The service
class carries the state of the machine as a ghost value; each method is one event of it, `startAll`
one for each job.

**Retrieval** (`Mmr`, `HybridSearch`, `Ensemble`, `Compress`). Scores are real numbers; similarity,
BM25 and what a vector store returns are parameters.

**Router, templates, translations** (`JsText`, `OrderedMap`, `RoutePaths`, `Router`, `RegisteredPaths`, `AddedRoutes`,
`Template`, `I18n`). `OrderedMap` is a JavaScript `Map` with its insertion order, which `match` depends on.

Where the code keeps one of these promises only under a condition, the exact condition is proved:
`ContainerOverflow.EndsIffNoCircle`, `RequestIsolation.StaysApartIffIsolated`,
`SagaRollback.RecordsTruthfulIff`, `ModuleInit.InitializeEndsIffAcyclic`, `Compress.HalfSurvives`,
`RoutePaths.RoundTripsIffDistinct`, `AddedRoutes.AddedRoutesAreUnseen`, `Template.ComposesIffGuarded`,
`Template.ComposesIffInert` and `I18n.UnlistedKeysExist`. Most come with an input that fails. Other
conditions are sufficient only: among them the room that `ContainerTermination.ResolveTerminates` and
`ContainerPure.ResolutionIsPure` ask for, `Normalised` for the range of fused scores in `Ensemble`,
and `Tidy` in `I18n.KeysAndLookupInvert`.

## Model

| member | source | states |
|---|---|---|
| ContainerFrame.ResolveFrame | packages/core/src/container.ts:145-246 | Whatever the graph and the outcome, a resolution leaves every resolution stack and in-progress flag as on entry, other requests' instances untouched, cached instances in place, and adds only automatically registered classes; no singleton in progress gains an instance |
| ContainerCycles.ResolveEntangled | packages/core/src/container.ts:145-312 | Members of a set in which nobody is cached and each depends on another member never get cached, and resolving one throws, for all scopes, requests, stacks and depths |
| ContainerCycles.ResolveKeepsChain | packages/core/src/container.ts:161-246 | While factories that depend on each other are running, the resolutions they make cache none of them |
| ContainerCycles.NoReentry | packages/core/src/container.ts:174-197 | Between the decision to run a factory and its return nobody else has cached that token |
| ContainerOnce.BuiltOnceInEveryHistory | packages/core/src/container.ts:81-246 | Over every history of registrations, resolutions and clears: between registrations each singleton factory completes with a defined value at most once, each request-scoped factory at most once per request, and no provider is left in progress |
| ContainerOnce.SingletonIsStable | packages/core/src/container.ts:153-169 | Once a singleton has an instance, every later resolution returns it and changes nothing, after any operations short of registering it anew or clearing everything; it throws exactly when the stack passed holds the token already |
| ContainerOnce.ResolveTwice | packages/core/src/container.ts:153-198 | The defined value the first resolution of a singleton returns, automatic registration included, is what every later one returns, after the same operations and with the same exception |
| ContainerPure.ResolveSound | packages/core/src/container.ts:111-312 | From any state whose caches hold what recursive construction gives, on any graph: a resolution keeps the caches so; if it returns it returns the recursive construction, and if a factory throws the construction fails the same way |
| ContainerPure.MemoisationIsTransparent | packages/core/src/container.ts:111-312 | In every state reached by resolutions and request clears, a resolution that returns gives the recursive construction |
| ContainerPure.ResolutionIsPure | packages/core/src/container.ts:111-312 | On an acyclic graph, with a request id, no stack passed and room on the call stack, the outcome in every reachable state is exactly the recursive construction, failures included |
| ContainerPure.PureConstructs | packages/core/src/container.ts:251-312 | On an acyclic graph the recursive construction exists |
| ContainerPure.ConstructionIsUnique | packages/core/src/container.ts:251-312 | On an acyclic graph there is only one recursive construction |
| ContainerTermination.ResolveTerminates | packages/core/src/container.ts:166-205 | If no dependency cycle avoids the singletons, a call stack bounded by the number of tokens is enough from any state, and a larger one changes nothing |
| ContainerTermination.DeeperIsSame | packages/core/src/container.ts:111-312 | A resolution that does not overflow gives the same outcome and state on every deeper call stack |
| ContainerTermination.SingletonCycleThrows | packages/core/src/container.ts:166-198 | Resolving an uncached cycle of singletons throws, and not for want of call stack |
| ContainerTermination.TransientCycleOverflows | packages/core/src/container.ts:201-205 | From any state, registered transients whose first dependency is again among them use up any call stack |
| ContainerOverflow.EndsIffNoCircle | packages/core/src/container.ts:111-312 | Between top-level resolutions, for a request, where no factory throws and no singleton to be built depends on itself: every token of a closed set can be resolved with some call stack exactly when no tokens to be built, of whatever scope, depend on each other in a circle; one frame per token and two are then enough |
| ContainerOverflow.EndsWithoutCycle | packages/core/src/container.ts:111-312 | Without a circle of tokens to be built that call stack is enough, whether or not factories throw |
| ContainerOverflow.CircleOverflows | packages/core/src/container.ts:201-246 | A token on such a circle overflows on every call stack: transient or request-scoped, registered or not, through any dependency |
| ContainerOverflow.OnlyOverflows | packages/core/src/container.ts:153-246 | Under those conditions running out of call stack is the only error; no singleton is asked for while it is in progress |
| ContainerTermination.AcyclicIsRanked | packages/core/src/container.ts:251-312 | A finite acyclic configuration has the rank on which the statements about recursive construction rest |
| Container.Container.RegisterInstance | packages/core/src/container.ts:60-76 | Registering a plain value replaces the record of its token: that instance and scope, no factory, nothing else changed |
| Container.Container.RegisterProvider | packages/core/src/container.ts:81-106 | Registering a configuration replaces the record by one that is not in progress and has an instance only for `useValue` |
| Container.Container.Resolve | packages/core/src/container.ts:111-140 | Outcome and new state are those of the specification |
| Container.Container.AutoResolve | packages/core/src/container.ts:251-270 | Registering an unknown class, with the caller's stack captured, and resolving it is one specified resolution |
| Container.Container.ResolveFromMetadata | packages/core/src/container.ts:145-218 | Pushing on the stack, the switch over scopes and popping in `finally` together are the specified resolution |
| Container.Container.ResolveSingleton | packages/core/src/container.ts:166-198 | The singleton branch, with its flag and `finally`, is the specified switch |
| Container.Container.StoreSingleton | packages/core/src/container.ts:181-196 | After the factory the flag is cleared, and the instance stored only if the factory returned |
| Container.Container.ResolveRequestScoped | packages/core/src/container.ts:223-246 | The request branch opens the request's map, reuses an instance that is there, and stores a new one only if the factory returned |
| Container.Container.RunFactory | packages/core/src/container.ts:96-103 | Running a factory resolves its dependencies left to right and stops at the first that throws; the provider survives it |
| Container.Container.ResolveEach | packages/core/src/container.ts:97-98 | Dependencies resolve in order in the state the previous one left |
| Container.Container.ClearRequestScope | packages/core/src/container.ts:317-322 | Only that request's instances go |
| Container.Container.Clear | packages/core/src/container.ts:327-331 | No provider and no request instance is left |
| Container.SwitchIsResolve | packages/core/src/container.ts:154-217 | Adding the token, running the scope switch and deleting the token in `finally` is one specified resolution, for every outcome |
| RequestHandlers.OnlyActiveRequestsHaveInstances | packages/core/src/router.ts:146-438 | In every interleaving of handlers only active requests have an instance map; a request's map is gone when its handler has ended, however it ended |
| RequestHandlers.RequestsAreIsolated | packages/core/src/container.ts:223-246 | Between two steps of one handler its instances do not change, whatever other handlers do |
| RequestIsolation.StaysApartIffIsolated | packages/core/src/container.ts:161-246 | On an acyclic graph whose factories make defined values, what a token is resolved to never holds an instance built for another request, after any resolutions and ends of requests, exactly when no singleton it depends on, or is, depends directly or not on a request-scoped token |
| RequestIsolation.IsolatedStaysApart | packages/core/src/container.ts:145-246 | Under that condition it never does on any graph, cycles included, for every stack, depth and outcome |
| RequestIsolation.LeakShows | packages/core/src/container.ts:161-246 | Where such a singleton is resolved for a first request and that request is cleared, whatever depends on it holds the first request's instance when it is resolved for a second |
| RequestIsolation.ControllerKeepsFirstRequest | packages/core/src/hazel-module.ts:203-224 | A singleton controller with a request-scoped service is such a case |
| RequestHandlers.BareKeepsRequests | packages/core/src/container.ts:207-211 | Resolving without a request id changes no request map |
| ContainerFactories.ClassIsBuiltFrom | packages/core/src/container.ts:275-312 | A class to be built is its constructor applied to what its tokens are built as, parameter by parameter: the injection token where one is given that is neither absent nor empty, the parameter type otherwise; the first of them that fails is the failure |
| ContainerFactories.ClassIsResolvedFrom | packages/core/src/container.ts:275-312 | The same of resolutions, in every state of an acyclic container: resolving the class is calling its constructor with what resolving each of those tokens gives |
| ContainerFactories.FactoryIsGiven | packages/core/src/container.ts:96-99 | A factory is called with what the tokens of its `inject` list give, in order; the first that fails is the failure |
| ContainerFactories.ProviderIsUsed | packages/core/src/container.ts:81-106 | What a configuration gives: its value if it has one and is a singleton, else its factory, else its class, else undefined; singleton scope unless one is given |
| ContainerFactories.UnknownIsUndefined | packages/core/src/container.ts:112-139 | Absent tokens, and unknown ones that are no classes, give undefined |
| ContainerFactories.StackCatchesCircle | packages/core/src/container.ts:251-303 | A class that the container registers itself hands the caller's stack to its dependencies: one that depends on itself first is reported as circular, in every scope |
| Sorting.StableSortIsStable | packages/saga/src/orchestrator.ts:51 | The sort orders by key and keeps every class of equal keys in its order |
| Sorting.StableSortPlaces | packages/saga/src/orchestrator.ts:51 | The sorted sequence has every element once, smaller keys first and the earlier of equal ones first, by positions |
| Sorting.StableSortUnique | packages/saga/src/orchestrator.ts:51 | Two sorted sequences with the same elements in the same order for every key are equal: a stable sort is determined |
| Sorting.SortAfterPush | packages/saga/src/orchestrator.ts:43-51 | Pushing onto a sorted sequence and sorting equals sorting everything once |
| Sorting.SortKeepsSelection | packages/saga/src/orchestrator.ts:47-51 | Elements that arrive in key order leave in the order they arrived, whatever lies between |
| SagaSteps.IncrementalIsBatch | packages/saga/src/orchestrator.ts:37-52 | A push and a sort per registration is one stable sort of all registrations |
| SagaSteps.RegistryIsStablySorted | packages/saga/src/orchestrator.ts:37-52 | The registry is sorted by order, holds each registration once, and keeps ties in registration order |
| SagaSteps.DefaultOrderKept | packages/saga/src/orchestrator.ts:47 | Steps registered without an order keep their registration order among themselves, whatever orders others have |
| SagaSteps.AllDefaultKeepsOrder | packages/saga/src/orchestrator.ts:47-51 | If no step has an order, the registry is the registrations as they came |
| SagaSteps.RegistryRunsInOrder | packages/saga/src/orchestrator.ts:37-52 | Every registration is there once, with its method and compensation; steps run by the order given, or else by the number of steps registered before, and as registered among equals |
| SagaRun.ResumeInv | packages/saga/src/orchestrator.ts:71-137 | The code between two awaits keeps the run invariant, for any step names: records are the steps in order, at most one FAILED and that one last, and a record is COMPENSATED exactly when it is the first of its name and a compensation of that name returned |
| SagaRun.EveryRunInEveryState | packages/saga/src/orchestrator.ts:54-138 | Over every interleaving of runs of a closed registry, every run in every reachable state satisfies that invariant and is over or awaits an answer |
| SagaRun.FinishedRun | packages/saga/src/orchestrator.ts:100-108 | A run that is over is COMPLETED or ABORTED, never FAILED or COMPENSATING, with the call trace that belongs to it |
| SagaRun.CompensatingRun | packages/saga/src/orchestrator.ts:111-138 | While compensating at position j only declared compensations of steps between j and the failed one have returned, the records book exactly these, and the last record is FAILED |
| SagaRun.CompensatingWithDistinctNames | packages/saga/src/orchestrator.ts:111-138 | With distinct names, while compensating at position j every record up to j is COMPLETED, and a later one is COMPENSATED exactly when its compensation returned |
| SagaRun.TruthfulWhenFirst | packages/saga/src/orchestrator.ts:125-128 | If no compensable step has the name of an earlier step, in every reachable state a record is COMPENSATED exactly when the compensation of its own step returned |
| SagaRollback.RecordsTruthfulIff | packages/saga/src/orchestrator.ts:125-128 | The records end up telling which steps were compensated, in every world, exactly when no compensable step has the name of an earlier one |
| SagaRollback.DriveFinishes | packages/saga/src/orchestrator.ts:54-109 | In any world a run ends, in a finished state that satisfies the invariant |
| SagaRollback.TraceOfStart | packages/saga/src/orchestrator.ts:68-102 | The calls of a run, in any world and for any step names, are the steps in order up to the first that throws, then the declared compensations of those before it, last first, past any that throw; it ends COMPLETED or ABORTED |
| SagaRollback.RunCallsAsDeclared | packages/saga/src/orchestrator.ts:54-138 | In any world a run calls every step once in order, and COMPLETED; or the steps up to the first that throws, and then, last first, the compensation of every earlier step that has one, and is ABORTED |
| SagaRollback.RollbackRestores | packages/saga/src/orchestrator.ts:68-138 | If every compensation inverts its step and does not throw and a failing step has no effect, the run ends ABORTED with the world as it was, wherever it failed, or COMPLETED with every step's effect |
| SagaOrchestrator.SagaOrchestrator.RegisterSaga | packages/saga/src/orchestrator.ts:31-35 | A new name gets a saga of its own without steps; a known one is left alone |
| SagaOrchestrator.SagaOrchestrator.RegisterStep | packages/saga/src/orchestrator.ts:37-52 | Fails exactly for an unknown saga; otherwise that saga's registry becomes its registrations with the new one, in the order `RegistryRunsInOrder` says, and no other saga changes |
| SagaOrchestrator.SagaOrchestrator.Start | packages/saga/src/orchestrator.ts:54-109 | The loop over the steps ends in the world, status, records and calls of the driven state machine; an unknown saga is refused without effect |
| SagaOrchestrator.SagaOrchestrator.CompensateSteps | packages/saga/src/orchestrator.ts:111-138 | The compensation loop does what the compensating state machine does, from the failed step down |
| SagaOrchestrator.Find | packages/saga/src/orchestrator.ts:125 | Finds the record that gets marked: the first of that name |
| ModuleGraph.CollectsReachable | packages/core/src/hazel-module.ts:62-83 | On every finite import graph, cycles included, the modules collected are the reachable ones, each once |
| ModuleGraph.CollectorsAgree | packages/core/src/hazel-module.ts:62-115 | Both collectors visit the same modules, and the controllers collected imports-first are a permutation of those of the modules collected module-first |
| ModuleGraph.CollectModules | packages/core/src/hazel-module.ts:62-83 | The recursion over a shared visited set terminates on cyclic graphs and computes the specified traversal, each entry with its module and whether it is dynamic |
| ModuleGraph.CollectControllers | packages/core/src/hazel-module.ts:89-115 | The same for the controllers |
| ModuleGraph.OwnControllers | packages/core/src/hazel-module.ts:105-112 | A module contributes its controller classes in order, `useClass` entries unwrapped, other entries dropped |
| ModuleOrder.ModulesAfterImporter | packages/core/src/hazel-module.ts:62-83 | The root comes first and every other module after one that imports it |
| ModuleOrder.ControllersImportsFirst | packages/core/src/hazel-module.ts:89-115 | The controllers are those of each reachable module once, after those of its imports except imports that lead back to it |
| ModuleOrder.ControllerEntries | packages/core/src/hazel-module.ts:105-112 | A module's controllers are its entries that are classes or name one in `useClass`, all of them, in order |
| ModuleInit.InitializeEndsIffAcyclic | packages/core/src/hazel-module.ts:127-140 | On a finite graph the recursion ends exactly when no import cycle can be reached; one frame per module is then enough |
| ModuleInit.CompletesIff | packages/core/src/hazel-module.ts:127-244 | `initialize` runs to its end exactly when no import cycle can be reached and no registration throws, whichever may throw and whatever was registered before |
| ModuleInit.ImportsFirstSoFar | packages/core/src/hazel-module.ts:131-226 | Whether `initialize` ends, a registration throws or the call stack runs out, on cyclic graphs too, what has been registered by then is imports-first |
| ModuleInit.InitializeImportsFirst | packages/core/src/hazel-module.ts:131-243 | Every registration of a module comes after all registrations of all its transitive imports, its providers before its controllers, each in the order of the lists |
| ModuleInit.InitializeRegistersCollected | packages/core/src/hazel-module.ts:127-244 | The registrations due are exactly those of the modules the collector reports, with all their providers and controllers |
| ModuleInit.TraceContents | packages/core/src/hazel-module.ts:127-244 | The trace holds the registrations of the reachable modules and nothing else |
| ModuleInit.TimesRegistered | packages/core/src/hazel-module.ts:131-244 | A registration is made once for every import path from the root to its module, so once exactly when there is one path |
| ModuleInit.InitializeModule | packages/core/src/hazel-module.ts:127-244 | The recursive constructor registers the trace up to the first registration that throws, and ends, throws or overflows accordingly |
| ModuleInit.RegisterOwn | packages/core/src/hazel-module.ts:143-243 | A module's providers and then its controllers are registered in order, up to the first that throws |
| ModuleInit.InitializeImports | packages/core/src/hazel-module.ts:137-139 | The loop over the imports registers their traces in order and stops at the first import that throws or overflows |
| CronState.CronSafety | packages/cron/src/cron.service.ts:55-338 | Over every interleaving: runs counted are executions begun and never exceed a positive `maxRuns`; at most one execution of a job is in flight; a live schedule belongs to an enabled job that is the current one of its name; no job has two |
| CronEffects.EveryTick | packages/cron/src/cron.service.ts:105-121 | In every history: a tick of an idle job without limit, or below it, begins exactly one run, sets the running flag and keeps the schedule; at its limit, a negative one included, it begins none and ends the schedule; a tick of a running job changes nothing |
| CronEffects.RegisterMakesOne | packages/cron/src/cron.service.ts:212-232 | Registering makes one new job and stops the old one of its name; the new one has exactly one live schedule if enabled, and begins one run at once with `runOnInit`, unless its limit is negative, in which case neither |
| CronEffects.ControlCalls | packages/cron/src/cron.service.ts:237-298 | Stopping, enabling, disabling and deleting a job change its schedule, its enabled flag and its entry, and nothing else |
| CronEffects.StartSchedules | packages/cron/src/cron.service.ts:55-85 | Starting a job that is enabled and has no schedule gives it one and, with `runOnInit`, does what a tick would do; any other start changes nothing |
| CronState.NextSafe | packages/cron/src/cron.service.ts:55-338 | Every event keeps the invariant behind it |
| CronState.NoScheduleLeaks | packages/cron/src/cron.service.ts:237-338 | Deleting or replacing a job ends its schedules; clearing ends all |
| Cron.CronJob.Start | packages/cron/src/cron.service.ts:55-85 | A job that is stopped and enabled gets one schedule, and with `runOnInit` a first execution, which may give the schedule up again; otherwise nothing happens |
| Cron.CronJob.Stop | packages/cron/src/cron.service.ts:90-97 | The schedule held is no longer live; no other schedule is touched |
| Cron.CronJob.Execute | packages/cron/src/cron.service.ts:102-117 | A running job skips, a job at its limit stops, any other begins one run |
| Cron.CronJob.Complete | packages/cron/src/cron.service.ts:132-134 | Only the running flag is cleared |
| Cron.CronJob.Disable | packages/cron/src/cron.service.ts:148-152 | The job is disabled and its schedule is gone |
| Cron.CronService.SafeAsWritten | packages/cron/src/cron.service.ts:55-135 | Whenever no method runs, each job object ever made has as many runs as executions begun, at most its limit and at most one in flight, and a schedule only if it is enabled and current |
| Cron.CronService.LiveAsWritten | packages/cron/src/cron.service.ts:68-77 | Each live schedule is held by an enabled job that is the current one of its name |
| Cron.CronService.RegisterJob | packages/cron/src/cron.service.ts:214-232 | The objects change as the `RegisterJob` event says: the job of that name is deleted, and with a valid expression a new one is added and started unless disabled |
| Cron.CronService.DeleteJob | packages/cron/src/cron.service.ts:237-246 | The `DeleteJob` event; says whether there was a job |
| Cron.CronService.StartJob | packages/cron/src/cron.service.ts:251-259 | The `StartJob` event; says whether there is a job |
| Cron.CronService.StopJob | packages/cron/src/cron.service.ts:264-272 | The `StopJob` event; says whether there is a job |
| Cron.CronService.EnableJob | packages/cron/src/cron.service.ts:277-285 | The `EnableJob` event, which starts nothing; says whether there is a job |
| Cron.CronService.DisableJob | packages/cron/src/cron.service.ts:290-298 | The `DisableJob` event; says whether there is a job |
| Cron.CronService.Tick | packages/cron/src/cron.service.ts:68-72 | The `Tick` event: of the job that holds the schedule a run begins, is skipped or ends the schedule, by its flag, limit and count, and is recorded exactly when it begins |
| Cron.CronService.Complete | packages/cron/src/cron.service.ts:119-134 | The `Completes` event: a callback may settle after its job was replaced |
| Cron.CronService.StopAll | packages/cron/src/cron.service.ts:318-321 | The loop over the jobs is the `StopAll` event; no schedule is live afterwards |
| Cron.CronService.StartAll | packages/cron/src/cron.service.ts:326-329 | One `StartJob` event for each current job, each once |
| Cron.CronService.ClearAll | packages/cron/src/cron.service.ts:334-338 | The `ClearAll` event; no job is left and no schedule is live |
| CronState.StopEachIsStopEvery | packages/cron/src/cron.service.ts:318-321 | Stopping the current jobs one after another, in any order, stops exactly all of them at once |
| Mmr.RoundsPartition | packages/rag/src/rag-pipeline.ts:255-292 | After n rounds selected and remaining are a permutation of the candidates, every pick has an embedding, and there are min(n, candidates with embeddings) picks |
| Mmr.EachPickIsEarliestBest | packages/rag/src/rag-pipeline.ts:258-284 | Each pick is the earliest maximiser of the MMR score against the picks before it |
| Mmr.PickTradesEvenly | packages/rag/src/rag-pipeline.ts:246-280 | No candidate left has more relevance less similarity to the picks before than the one picked |
| Mmr.FirstPickIsMostRelevant | packages/rag/src/rag-pipeline.ts:246-280 | The first pick has the greatest relevance |
| Mmr.ScoresFall | packages/rag/src/rag-pipeline.ts:277-292 | Successive winning scores never increase |
| Mmr.BestIsEarliest | packages/rag/src/rag-pipeline.ts:262-284 | The scan with a strict comparison finds the earliest maximiser, and none only if no candidate has an embedding |
| Mmr.MaxSimilarityIsGreatest | packages/rag/src/rag-pipeline.ts:270-275 | The penalty bounds the similarity to every selected document with an embedding, and is one of them unless it is 0 |
| Mmr.MaxSimilarityTo | packages/rag/src/rag-pipeline.ts:270-275 | The inner loop computes that penalty |
| Mmr.FindBest | packages/rag/src/rag-pipeline.ts:259-284 | The scan finds the index that `BestIsEarliest` characterises |
| Mmr.RetrieveWithMMR | packages/rag/src/rag-pipeline.ts:236-295 | Pushing and splicing until topK or until nothing can be picked gives the selection after topK rounds |
| HybridSearch.HybridRanking | packages/rag/src/rag-pipeline.ts:331-358 | Hits are vector hits with their fused scores, all in [0, 1], best first, no id twice, at most topK |
| HybridSearch.VectorOnlyRanking | packages/rag/src/rag-pipeline.ts:331-358 | Without keyword hits the result is the topK vector hits by their own scores, ties in their order |
| HybridSearch.BetterRanksFirst | packages/rag/src/rag-pipeline.ts:331-358 | A hit that is at least as good as another in both searches and better in one ranks before it |
| HybridSearch.WeightsOfBestHits | packages/rag/src/rag-pipeline.ts:334-345 | A best vector hit alone gets 0.7, a best hit of both 1, a best keyword hit that is the worst vector hit 0.3 |
| HybridSearch.NormalizeKeepsOrder | packages/rag/src/rag-pipeline.ts:322-329 | Normalised scores are ordered as the scores are, the last item of an id counting |
| HybridSearch.NormalizeKeepsProportions | packages/rag/src/rag-pipeline.ts:322-329 | Differences of normalised scores are in the proportion of the differences of the scores |
| HybridSearch.NormalizeEnds | packages/rag/src/rag-pipeline.ts:322-329 | A greatest score becomes 1 unless all are equal, a least one 0 |
| HybridSearch.OriginalAt | packages/rag/src/rag-pipeline.ts:350-355 | Of several vector hits with one id the last one is reported |
| HybridSearch.DroppedHitsScoreLess | packages/rag/src/rag-pipeline.ts:347-358 | No vector hit that is left out outscores one that is kept |
| HybridSearch.FusedInUnit | packages/rag/src/rag-pipeline.ts:334-345 | Every fused score lies in [0, 1], for any hit lists, also when an id is missing from one |
| HybridSearch.NormalizedInUnit | packages/rag/src/rag-pipeline.ts:322-329 | Normalised scores lie in [0, 1], and exactly the ids of the list have one |
| HybridSearch.ExtremesAttained | packages/rag/src/rag-pipeline.ts:325-326 | The bounds used for normalising are scores of the list |
| HybridSearch.RetrieveHybrid | packages/rag/src/rag-pipeline.ts:301-359 | Gives that ranking once BM25 is indexed, in the order of the hits' own scores if no keyword hit is found, and the first topK vector hits before; topK is the option, else the configured number, else 5 |
| Ensemble.RetrieveEnsemble | packages/rag/src/rag.service.ts:523-574 | Fused scores fall; each id of any list is there once, with the sum of its weighted contributions; together they are all contributions; with non-negative weights that sum to 1 and no id twice in a list each lies in [0, 1]; the first ten are returned |
| Ensemble.DefaultWeights | packages/rag/src/rag.service.ts:531-534 | Given weights are used if there is one per method; the default ones are equal, not negative and sum to 1 |
| Ensemble.ContributionsCompare | packages/rag/src/rag.service.ts:549-556 | With a positive weight contributions are ordered as the scores of the list are |
| Ensemble.ContributionOf | packages/rag/src/rag.service.ts:549-556 | Scores in [0, 1] contribute themselves times the weight; beyond that a greatest one contributes the weight and a least one nothing |
| Ensemble.Fuse | packages/rag/src/rag.service.ts:544-566 | After the two loops the score map holds exactly the ids seen, each with what the lists add up to |
| Ensemble.CombinedBound | packages/rag/src/rag.service.ts:549-563 | With non-negative weights and distinct ids no id gets more than the weights add up to |
| Ensemble.AddToFacts | packages/rag/src/rag.service.ts:556-564 | One hit adds its contribution to its own id and to the total, and to nothing else; the first hit of an id is the one kept |
| Compress.HalfSurvives | packages/rag/src/rag.service.ts:272-277 | At least half the documents reach 0.6 of the median exactly when the median is not negative |
| Compress.MedianRank | packages/rag/src/rag.service.ts:273-275 | The median is a score that at least half the documents reach and fewer than half exceed |
| Compress.SurvivesIff | packages/rag/src/rag.service.ts:277 | The filter keeps something exactly when a score reaches the threshold |
| Compress.NearDuplicates | packages/rag/src/rag.service.ts:281-329 | Two contents count as duplicates exactly when they share more than four times as many words as only one of them has |
| Compress.ValidKeeps | packages/rag/src/rag.service.ts:301-305 | The indices used are those of the model that are in range, in its order |
| Compress.OnlyDocumentDropped | packages/rag/src/rag.service.ts:272-277 | A document that comes alone is dropped exactly when its score is negative |
| Compress.GreedyCoverUnique | packages/rag/src/rag.service.ts:279-289 | There is only one subset that is pairwise dissimilar and covers each discarded document by an earlier kept one |
| Compress.JaccardLaws | packages/rag/src/rag.service.ts:323-329 | Jaccard similarity is symmetric, lies in [0, 1], and is 1 exactly for equal non-empty sets |
| Compress.FilterAtLeast | packages/rag/src/rag.service.ts:277 | Keeps the documents at or above the threshold, in order |
| Compress.Deduplicate | packages/rag/src/rag.service.ts:280-288 | Keeps that subset, in order; nothing is kept only if there was nothing |
| Compress.Choose | packages/rag/src/rag.service.ts:292-316 | The model's valid indices in its order if it gave any, else the first five; never empty when something was kept |
| Compress.Compress | packages/rag/src/rag.service.ts:269-317 | The result is chosen from the greedy cover of the filtered documents, at most five unless the model chose; something is returned exactly when a score reaches 0.6 of the median, as one does when the median is not negative |
| RoutePaths.MatchesIffFilled | packages/core/src/router.ts:441-473 | For a route with distinct parameter names a path matches exactly when filling the route with the extracted parameters gives the path back |
| RoutePaths.FilledPathsMatch | packages/core/src/router.ts:441-473 | A path made by filling a route with slash-free values matches it, and exactly those values come back |
| RoutePaths.RepeatedNameLosesAValue | packages/core/src/router.ts:446-452 | Every route with a repeated parameter name has a path that matches and is not given back |
| RoutePaths.RoundTripsIffDistinct | packages/core/src/router.ts:441-473 | Matching is the same as being filled back, for every path, exactly for routes with distinct parameter names |
| RoutePaths.FullPathIsNormal | packages/core/src/router.ts:54-56 | Every registered path starts with a slash, ends with none unless it is "/", and is a fixed point of `normalizePath` |
| RegisteredPaths.RegisteredUnder | packages/core/src/router.ts:54-56 | A route is registered under the controller's path and then its own, white space and slashes around each removed, with one slash in front of each that is not empty, or under "/" |
| RegisteredPaths.EveryPathHasCore | packages/core/src/router.ts:54-55 | Every declared path is such a core with slashes around it and white space around those |
| RegisteredPaths.BarePaths | packages/core/src/router.ts:54-56 | `users` and `:id`, or `/users/` and ` /:id`, give /users/:id |
| RegisteredPaths.DeclaredRouteIsFound | packages/core/src/router.ts:45-97 | A controller with one route on a router without routes for its method: every URL made by filling that path with non-empty slash-free values finds its handler and gives the values back |
| RegisteredPaths.PathOfUrlIs | packages/core/src/router.ts:486-494 | The path asked for is the URL before the first question mark, with a slash in front and none at the end |
| RegisteredPaths.SegmentsAsDeclared | packages/core/src/router.ts:441-473 | A segment that begins with a colon matches any and names it; any other matches itself and names nothing |
| RegisteredPaths.MethodsInCapitals | packages/core/src/router.ts:74 | Methods may be written in any case |
| RoutePaths.MatchPath | packages/core/src/router.ts:458-473 | The early-exit loop decides matching |
| RoutePaths.ExtractParams | packages/core/src/router.ts:441-456 | The loop fills the record in which a later parameter of one name overwrites |
| Router.ScanIsFirstMatch | packages/core/src/router.ts:505-530 | First match in one method's part of the flat table is what a scan of the flat table for that method finds |
| AddedRoutes.MatchAt | packages/core/src/router.ts:505-530 | The entry found is the first whose path matches |
| OrderedMap.SetPlaces | packages/core/src/router.ts:86 | Setting a key that is there keeps its place, a new one comes last |
| Router.RestrictSet | packages/core/src/router.ts:75-86 | Setting a route key changes the part of its own method as a set on that table would, order included, and no other |
| Router.AgreeOnRegister | packages/core/src/router.ts:77-86 | Writing a route to both tables keeps them in agreement |
| AddedRoutes.AddedRoutesAreUnseen | packages/core/src/router.ts:493-554 | After any calls of `addRoute` on tables that agree, `match` still finds what a scan of the flat table would, for every URL of a method, exactly when for the path of each call an earlier route shadows it segment by segment, the handler in the flat table is the one in the method's table, or no request path can reach it |
| AddedRoutes.TablesStayEqual | packages/core/src/router.ts:551-554 | The tables themselves stay in agreement exactly when the same handler is there already |
| AddedRoutes.AddedRouteIsMissed | packages/core/src/router.ts:551-554 | A single added route is not found for its own path |
| AddedRoutes.ShadowedRouteIsHarmless | packages/core/src/router.ts:505-553 | Behind "/:x" an added "/a" changes the table and no request |
| Router.Router.RegisterController | packages/core/src/router.ts:45-97 | Sets the controller's routes in both tables in order, and keeps them in agreement if they were |
| Router.Router.AddRoute | packages/core/src/router.ts:551-554 | Only the flat table changes |
| Router.Router.Match | packages/core/src/router.ts:493-533 | Finds the first match in the per-method table, with the parameters of that route; as long as the tables agree, that is what a first-match scan of the flat table for that method would find |
| JsText.JoinSplit | packages/core/src/router.ts:459-460 | Joining what `split` gives restores the text |
| JsText.SplitJoin | packages/i18n/src/i18n.service.ts:118 | Splitting a join of separator-free parts gives the parts back |
| JsText.JoinInjective | packages/i18n/src/i18n.service.ts:178 | Separator-free part lists with equal joins are equal |
| Template.RenderTwice | packages/prompts/src/template.ts:128-132 | Rendering with one set of values and then another equals one render with both, the first deciding, if no brace that starts no placeholder is followed, after word characters only, by one (guarded), and no brace in the first values starts a placeholder or could start one with what follows the value (inert, as JSON text is); the placeholders left are the unbound ones |
| Template.ComposesIffGuarded | packages/prompts/src/template.ts:128-132 | That law holds for all inert values exactly for guarded templates |
| Template.ComposesIffInert | packages/prompts/src/template.ts:128-132 | It holds for all guarded templates exactly for inert values |
| Template.ShownPrefix | packages/prompts/src/template.ts:128-132 | A placeholder becomes its value if it has one and stays otherwise, and the text behind it is rendered next |
| Template.WordsAsDeclared | packages/prompts/src/template.ts:129 | A single character is a key exactly if it is an ASCII letter, a digit or an underscore |
| Template.WellFormedIsGuarded | packages/prompts/src/template.ts:129 | Templates whose every opening brace starts a placeholder are guarded |
| Template.UnboundIsIdentity | packages/prompts/src/template.ts:128-132 | Values that bind no placeholder change nothing; so no values are the identity |
| Template.StrayBraceBreaksIt | packages/prompts/src/template.ts:129 | The shortest template that is not, and values for which the law fails |
| Template.Render | packages/prompts/src/template.ts:106-134 | Strict mode accepts exactly when every placeholder is bound, otherwise names each unbound one once; the text is the substitution |
| Template.InterpolateTwice | packages/i18n/src/i18n.service.ts:167-173 | Interpolation obeys the same laws under the same conditions, absent values included |
| Template.InterpolateComposesIff | packages/i18n/src/i18n.service.ts:167-173 | Both conditions are exact for interpolation too |
| I18n.KeysAndLookupInvert | packages/i18n/src/i18n.service.ts:73-186 | For trees with non-empty dot-free segments `getKeys` lists without repetition exactly the paths to texts and plurals, and each listed key resolves to what it was listed for |
| I18n.FlattenDistinct | packages/i18n/src/i18n.service.ts:175-186 | No key is listed twice, under any prefix |
| I18n.ListedKeysExist | packages/i18n/src/i18n.service.ts:90-113 | Every listed key exists in its locale and resolves there, whatever the fallback is |
| I18n.FallbackDecides | packages/i18n/src/i18n.service.ts:90-113 | A key exists exactly if it resolves in the locale or in a non-empty fallback; what the locale lists it for counts first, and what the fallback lists it for if the locale has nothing |
| I18n.MissingLocales | packages/i18n/src/i18n.service.ts:99-113 | Of two locales one of which is not loaded only the other counts |
| I18n.PluralForms | packages/i18n/src/i18n.service.ts:179 | An object with a `one` or an `other` form is listed as one key, any other as a namespace |
| I18n.UnlistedKeysExist | packages/i18n/src/i18n.service.ts:115-186 | A key that resolves is not listed exactly when it resolves to a namespace or a proper part of its path already ends at a plural |
| I18n.UnlistedKeysWitness | packages/i18n/src/i18n.service.ts:115-130 | A tree in which both kinds occur |
| I18n.FlattenKeys | packages/i18n/src/i18n.service.ts:175-186 | The recursive pushing loop computes the listing |
| I18n.ResolveInMap | packages/i18n/src/i18n.service.ts:115-130 | The walk over the parts computes the lookup, ending at texts and missing keys |

## Left out

Container

- Provider records are values in the map, so changing a provider, or clearing, while one of its factories runs is not modelled; the program keeps writing to the old record object.
- Factories are functions of their dependencies; factories that call back into the container, return promises or use call stack of their own are not modelled, and object identity appears only as the log of factory runs.
- ContainerPure.MemoisationIsTransparent: configuration is fixed first; registrations between resolutions are covered by ContainerOnce.BuiltOnceInEveryHistory only.
- ContainerPure.ResolutionIsPure: needs a request id, because a request-scoped dependency throws without one; without it ContainerPure.MemoisationIsTransparent still holds.
- The request id "" stands for an absent one (both are falsy); error texts and the chain in the circular-dependency message are not modelled.
- ContainerTermination.TransientCycleOverflows: only registered transients and first dependencies, but from any state; ContainerOverflow.CircleOverflows has any scope and dependency, between top-level resolutions.
- RequestIsolation.StaysApartIffIsolated: an instance counts as holding those its factory was given, whether it keeps them or not.
- The body of a route handler (guards, pipes, sending the response): it is any sequence of resolutions here.

Sagas

- Data, results, errors, timestamps and ids of runs; the branch that sets FAILED for a critical error, which no call in the loop can reach.
- SagaRollback.RollbackRestores: is about one run; other runs appear only as far as the world function includes them, and the hypotheses then speak of them too.
- Registering steps while a run is going on; `order` is a real number, so NaN is not modelled.

Modules and cron

- What `register(cls, resolve(cls))` does to the container at start-up: the trace records that it happens and whether it throws, which is a parameter, not the instances or the classes registered on the way.
- Imports that are undefined or not modules; module names.
- node-cron's reading of expressions and time zones; the dates of executions; `onComplete` and `onError`.
- Cron.CronService.StartAll: nothing happens between two starts; an init callback that calls the service there is an event of its own in CronState.CronSafety, not in this method.

Retrieval

- Floating-point rounding, NaN and infinities; cosine similarity, embeddings, BM25, the vector store and the model are parameters.
- Compress.Compress: splitting text into lower-case tokens is a parameter; so is reading indices from the model's answer.
- HybridSearch.RetrieveHybrid: a negative topK, which `slice` counts from the end.
- The chat history window and the other re-scoring strategies: easy next to the ones here.

Router, templates, translations

- Router.Router.RegisterController: agreement of the tables needs HTTP methods without spaces, as in the decorators; upper-casing covers ASCII.
- AddedRoutes.AddedRoutesAreUnseen: speaks of calls of `addRoute` after the controllers were registered, not of controllers registered in between.
- `createRoutePattern`, which is only logged; the handlers' own work.
- Template.Render: the `{@include}`, `{#if}` and `{#each}` rewrites before it, and the conversion of values to strings.
- Keys inherited from `Object.prototype`, such as `constructor`, which a plain record also answers to.
- Choosing a plural form, formatting, loading of translation files; numeric-looking keys, which JavaScript enumerates first.
