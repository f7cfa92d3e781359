# Manglekit, verified

Manglekit is a policy kernel around a Datalog engine. Policies are rules, requests are facts, and a
gate lets an action run only if no `halt` follows. This project models the parts of the kernel that
carry state over many calls and proves what holds in every run of them.

| file | models | main results |
|---|---|---|
| `Datalog.dfy` | stratified evaluation of ground rules with negation | evaluation gives the one stable model; without negation the least model; when re-evaluating over derived facts is exact |
| `Runtime.dfy`, `RuntimeProofs.dfy`, `MangleRuntime.dfy` | the policy runtime: loads, policies, hot reload, versioned result cache, interleaved queries | what every query answers, hit or miss; which programs are always answered as intended; the least model where negation is idle; which units are active |
| `Clauses.dfy`, `Explain.dfy`, `ExplainProofs.dfy`, `ExplainRuntime.dfy` | proof reconstruction by backtracking | sound and complete for solving premises; trees are valid, decided and cut only at the limits; when their leaves were really loaded |
| `Workflow.dfy`, `WorkflowProofs.dfy`, `WorkflowExecutor.dfy`, `AgentWorkflow.dfy`, `StringOrder.dfy` | workflow walks: plain, session-backed, and of an agent system | they are one walk; every run is bounded and accounted for call by call, along the first approved edges |
| `ParallelGroups.dfy` | grouping workflow nodes into parallel layers | layers are longest-path lengths; all nodes are placed exactly when there is no cycle |
| `CircuitModel.dfy`, `CircuitProofs.dfy`, `CircuitBreaker.dfy` | the breaker under concurrent callers | at most one probe; opens exactly at the threshold, closes exactly at a probe that did not fail |
| `QuadKeys.dfy`, `QuadStore.dfy` | key encoding and the four-index quad store | round trips, key order is tuple order, the indexes and the counter agree, scans are exact |
| `Escape.dfy`, `Flatten.dfy`, `FlattenProofs.dfy`, `FlattenTexts.dfy` | escaping and flattening JSON payloads into facts | the texts handed to the engine determine the payload |
| `GateModel.dfy`, `Gate.dfy`, `GateProofs.dfy` | the gates before and after a supervised action | exactly which halts block, and exactly when the two gates differ |
| `LoopModel.dfy`, `LoopClient.dfy`, `LoopProofs.dfy` | the retry/route loop of the client, across sessions | why every run goes on and ends; bounded, no feedback loops, one checkpoint at the end |
| `RateLimiterModel.dfy`, `RateLimiter.dfy`, `RateLimiterProofs.dfy` | the fixed-window rate limiter | exactly which calls pass; tight bound on bursts; when the window really slides |
| `Dict.dfy`, `DictProofs.dfy`, `ShardedDict.dfy` | the sharded string dictionary under interleaving | ids stay one to one and stable; lookup undoes creation |

Things outside the model are parameters over which every statement is quantified: the outcome of an
evaluation that may abort part-way, the results of node executors, conditions and actions, the answers
of gate queries, clock readings, hash functions, text normalisation. Interleavings are runs of a state
machine whose steps are the code's critical sections. Objects that the code updates in place are classes;
each of their methods is proved to do what the corresponding function of the state machine says.

Where code and documentation disagree the model follows the code:

- `NewRateLimiter` speaks of a sliding window (providers/predicates/predicates.go:43); the window is fixed.
  `RateLimiterProofs.SlidesExactly` says when that makes no difference.
- The post-check is documented to block halts without a known tier (internal/supervisor/action.go:136-139).
  It does not once a T2 or T3 halt is present: `GateProofs.GatesDifferExactly`, `GateProofs.UserHaltHidesUnknownHalt`.
- A step whose result has no decision entry at all counts as proceeding for the loop but is not
  checkpointed, because a missing entry is not the empty string (sdk/loop.go:241-242).
- A fact derived through negation stays in the base store when a later request adds the negated fact:
  `RuntimeProofs.NegationLeavesStaleFact`; the programs to which this cannot happen are exactly the monotone ones,
  `RuntimeProofs.AlwaysIntendedExactly`. Explanations show such a fact as given: `ExplainRuntime.StaleFactIsShownAsGiven`.
- An explanation reads the rules after its store was taken (internal/engine/explain.go:61-68). The statements about
  explanations are for rules of the store's own program, that is without a policy change in between.
- A node that fails and has an error edge is listed as completed too (core/workflow.go:193-199):
  `WorkflowExecutor.FailedIsAlsoCompleted`.
- A failure of the three-place halt query is only logged (internal/engine/solver.go:820-824). Alone it lets everything
  pass: `GateProofs.FailedTieredQueryIsIgnored`; if all queries of a gate share one evaluation it always blocks.

## Model

| member | source | states |
|---|---|---|
| `Datalog.ClosureExists` | internal/engine/runtime.go:1077-1103 | applying the rules of a stratum reaches, within the heads of the rules, a store that contains the input, is closed, and is contained in every such store |
| `Datalog.CloseIsSupported` | internal/engine/runtime.go:1077-1103 | every fact evaluation adds is the head of a rule that fires in the result |
| `Datalog.EvaluateIsStable` | internal/engine/runtime.go:1077-1103 | evaluating stratum by stratum yields a stable model, closed under all rules, made of input facts and rule heads |
| `Datalog.StableModelIsUnique` | internal/engine/runtime.go:1077-1103 | a stratified program has at most one stable model over an input |
| `Datalog.EvaluateIsTheStableModel` | internal/engine/runtime.go:1077-1103 | a store is a stable model if and only if it is what evaluation yields |
| `Datalog.ReevaluationIsExact` | internal/engine/runtime.go:105-112 | evaluating again over a store that already holds derived facts gives the original result exactly when that store lies within it |
| `Datalog.EvaluateIsLeastModel` | internal/engine/runtime.go:1077-1103 | without negation evaluation is the least model |
| `Datalog.EvaluateIsWithinLeastModel` | internal/engine/runtime.go:1077-1103 | with any negation, evaluation stays within the least model, where negated premises are ignored |
| `Datalog.UnblockedIsLeastModel` | internal/engine/runtime.go:1077-1103 | if no rule negates a fact of the least model, evaluation is the least model |
| `Datalog.NegationFreeIsMonotone` | internal/engine/runtime.go:1077-1103 | further input withdraws no fact of a negation-free program |
| `Datalog.MonotoneSurvivesMoreRules` | internal/engine/runtime.go:775-848 | a program whose facts no further input withdraws loses none when rules are added to it |
| `RuntimeProofs.LoadFactsKeepsSound` | internal/engine/runtime.go:726-747 | loading, also of a batch that fails part-way or whose evaluation aborts, keeps, for every stratified program: explicit facts in the base store, other base facts of derived predicates, and all of it within the least model of the explicit facts, that is derivable when negated premises are ignored |
| `RuntimeProofs.AddPolicyKeepsSound` | internal/engine/runtime.go:775-848 | adding a policy keeps the same, whether or not its evaluation completes |
| `RuntimeProofs.FilterKeepsExactlyExplicit` | internal/engine/runtime.go:700-723 | in every sound state, dropping derived facts from the base store leaves exactly the explicitly loaded ones |
| `RuntimeProofs.CommitKeepsSound` | internal/engine/runtime.go:656-693 | committing a reload keeps soundness, and its base store is the model of the explicit facts it read |
| `RuntimeProofs.RunKeepsSound` | internal/engine/runtime.go:559-958 | every interleaving of loads, policies, reload steps and query steps keeps soundness |
| `RuntimeProofs.QueryIsIntendedExactly` | internal/engine/runtime.go:884-958 | a query's store is the model of explicit plus request facts if and only if the base store lies within that model, and if and only if the answer follows from those facts with negation judged against itself |
| `RuntimeProofs.UndisturbedQueryIsLeastModel` | internal/engine/runtime.go:884-958 | if no rule negates a fact of the least model of explicit plus request facts, the answer is intended and is that least model; so for every negation-free program |
| `RuntimeProofs.AbsentNegationQueryIsLeastModel` | internal/engine/runtime.go:884-958 | it is enough that no negated predicate heads a rule or occurs among the explicit and request facts |
| `RuntimeProofs.MonotoneRunAnswersIntended` | internal/engine/runtime.go:559-958 | over every run in which only monotone programs are in force, every query is answered as intended |
| `RuntimeProofs.AlwaysIntendedExactly` | internal/engine/runtime.go:726-958 | a program is answered as intended after every load and for every request if and only if it is monotone, a property of its rules alone |
| `RuntimeProofs.RunAnswersLeastModel` | internal/engine/runtime.go:559-958 | after any run from the empty runtime, explicit facts ⊆ base store ⊆ least model, with any negation; and every query gets the least model unless a rule negates one of its facts |
| `RuntimeProofs.ReloadedQueryIsIntended` | internal/engine/runtime.go:656-693 | right after a reload, with negation too, a query without request facts gets the intended model |
| `RuntimeProofs.NegationLeavesStaleFact` | internal/engine/runtime.go:726-747 | with one negated rule, a request adding the negated fact still finds the derived fact |
| `RuntimeProofs.RunKeepsCoherent` | internal/engine/runtime.go:854-958 | every cache entry and every query under way belongs to the versions it carries, over every run whose loads parse fully |
| `RuntimeProofs.CacheHitIsFresh` | internal/engine/runtime.go:884-958 | in every such run a cache hit is the store a fresh evaluation would give |
| `RuntimeProofs.AnswerIsFresh` | internal/engine/runtime.go:884-958 | whatever runs before and in between, a query is turned away exactly if no program was ever put in place, fails exactly if its evaluation does, panics only after an invalidation, and every other answer, hit or miss, cacheable or not, is the evaluated store of the moment it began |
| `RuntimeProofs.RunKeepsCacheFresh` | internal/engine/runtime.go:946-955 | after every such run at most eight stores are cached, and those under the current versions are what evaluation gives |
| `RuntimeProofs.QueryKeepsTrusted` | internal/engine/runtime.go:884-958 | from a sound store and a fresh cache an uninterrupted query answers the evaluated store and keeps both |
| `RuntimeProofs.LoadKeepsTrusted` | internal/engine/runtime.go:726-747 | so does a clean load keep both, with any faithful evaluator |
| `RuntimeProofs.AddKeepsTrusted` | internal/engine/runtime.go:764-848 | so does an accepted policy |
| `RuntimeProofs.ReloadKeepsTrusted` | internal/engine/runtime.go:559-693 | so does a reload, after which the base store is exactly the new model of the facts in force |
| `RuntimeProofs.ReadyExactly` | internal/engine/runtime.go:886-889 | a runtime has a program exactly after the first successful policy or reload |
| `RuntimeProofs.UncleanLoadBreaksCoherence` | internal/engine/runtime.go:730-741 | a load that fails to parse after adding a new fact to a ready runtime always breaks it |
| `RuntimeProofs.StaleHitExactly` | internal/engine/runtime.go:730-741 | after such a load a hit is fresh if and only if the facts it added were already in the answer |
| `RuntimeProofs.CacheIsNilExactly` | internal/engine/runtime.go:854-858 | the cache map is nil after a run exactly when it was invalidated since the last query that found it absent |
| `RuntimeProofs.FinishPanicsExactly` | internal/engine/runtime.go:946-955 | a query's insert meets a nil map exactly when an invalidation came between its start and its end with no refill after |
| `RuntimeProofs.ReloadIsRun` | internal/engine/runtime.go:559-693 | an uninterrupted reload is a run of its three critical sections |
| `RuntimeProofs.QueryIsRun` | internal/engine/runtime.go:884-958 | an uninterrupted query is a run of one critical section if it hits and of two if it misses |
| `RuntimeProofs.VersionsCount` | internal/engine/runtime.go:559-848 | over every run the program version counts installed programs and the base version counts reloads and complete loads into a ready runtime |
| `RuntimeProofs.UnitsAreActiveUnits` | internal/engine/runtime.go:559-848 | over every sequence of calls the active units are the last reloaded one, all persistent ones, and those added since |
| `RuntimeProofs.ExplicitFactsAreLoaded` | internal/engine/runtime.go:726-747 | over every sequence of calls the facts in force are exactly those that stood in a loaded batch before any string that did not parse |
| `RuntimeProofs.ConcurrentLoadIsLost` | internal/engine/runtime.go:643-683 | a fact loaded between a reload's snapshot and its commit is gone afterwards unless the new model derives it |
| `RuntimeProofs.ConcurrentPersistentIsDropped` | internal/engine/runtime.go:564-683 | a persistent unit added between a reload's first snapshot and its commit is not active afterwards, and comes back with the next reload |
| `MangleRuntime.FilterStore` | internal/engine/runtime.go:700-723 | the filter loop keeps a fact exactly if its predicate was not derived before or it was loaded explicitly |
| `MangleRuntime.MangleRuntime.constructor` | internal/engine/runtime.go:184-192 | a new runtime is empty, not ready, with no program and no cached result |
| `MangleRuntime.MangleRuntime.AddBatch` | internal/engine/runtime.go:728-738 | facts up to the first that does not parse enter both stores; success means all parsed |
| `MangleRuntime.MangleRuntime.LoadFacts` | internal/engine/runtime.go:726-747 | the whole new state is that of the modelled load, for any evaluator |
| `MangleRuntime.MangleRuntime.AddPolicy` | internal/engine/runtime.go:764-848 | the whole new state is that of the modelled addition; an empty source succeeds and changes nothing, one that does not parse or analyse fails and changes nothing |
| `MangleRuntime.MangleRuntime.ReloadFromSource` | internal/engine/runtime.go:559-693 | a failed reload leaves program, facts, versions and cache unchanged; a successful one swaps all of them |
| `MangleRuntime.MangleRuntime.EvaluatedWorkingStore` | internal/engine/runtime.go:884-958 | an uninterrupted query answers from the cache or evaluates base plus request facts, never writes to a nil map and touches nothing but the cache; from a sound store, a fresh cache and a faithful evaluator its answer is the evaluated store |
| `Clauses.SafeIsOutright` | internal/engine/explain.go:174-282 | for rules whose negated and compared variables are bound, the premises are solvable in the prover's sense exactly when some extension of the substitution satisfies them all |
| `Clauses.SatisfiedExactly` | internal/engine/explain.go:174-282 | a premise holds outright exactly if its instance is a stored fact, the negation of an absent one, an equation of equal constants or an inequation of different ones |
| `Clauses.PassesExactly` | internal/engine/explain.go:174-282 | the prover lets a positive premise pass exactly if it holds, a negation or comparison exactly unless its contrary holds, and other constructs always |
| `Clauses.UnsafeIsLetThrough` | internal/engine/explain.go:240-254 | without that binding the prover accepts contradictory equalities that nothing satisfies |
| `Prover.UnifyArgs` | internal/engine/explain.go:287-305 | success gives an extension binding exactly the pattern's variables that makes the pattern the fact; failure means no extension does |
| `Prover.Prover.constructor` | internal/engine/explain.go:115-119 | a prover starts over its store and rules with no steps counted |
| `Prover.Prover.Prove` | internal/engine/explain.go:123-169 | for a stored fact it always returns a valid tree; within the limits the tree starts with the first rule that fires if one does and is a base leaf exactly if none does; while the steps last nothing is cut above the depth limit |
| `Prover.Prover.SolvePremises` | internal/engine/explain.go:174-282 | succeeds exactly when the remaining premises are solvable, independently of the step and depth limits, and returns valid children under one substitution, cut only at the depth limit while the steps last |
| `Prover.Prover.CheckClosed` | internal/engine/explain.go:179-198 | a premise without new variables holds exactly as in the store, and its child says so |
| `Prover.Prover.SolveOpen` | internal/engine/explain.go:200-226 | trying the stored facts in any order finds a solution of an open positive premise exactly when there is one |
| `Prover.Prover.TryCandidate` | internal/engine/explain.go:203-222 | a candidate fact succeeds exactly when it takes part in a solution |
| `Prover.Prover.Explain` | internal/engine/explain.go:46-109 | one valid tree for each stored fact that is an instance of the query, a repeated variable counting as different ones, and no other; for a query without repeated variables exactly its stored instances; the outcome is whether there is one; while the steps last trees are cut only at the depth limit |
| `Prover.MatchIsInstanceExactly` | internal/engine/explain.go:78-86 | comparing a stored fact with the query finds exactly the instances of the query if and only if no variable occurs twice in it |
| `Prover.MatchesAreLinearInstances` | internal/engine/explain.go:78-86 | in any case it finds exactly the instances of the query with every variable occurrence made a variable of its own |
| `ExplainProofs.SafeRuleNode` | internal/engine/explain.go:123-169 | a rule node's children are that rule's premises under one ground substitution, all true in the store, negated ones absent from it |
| `ExplainProofs.TreesAreShallow` | internal/engine/explain.go:16-19 | no tree is deeper than 32 |
| `ExplainProofs.TreesAreDecided` | internal/engine/explain.go:123-169 | in a tree made within the step limit, every fact above depth 32 has its first firing rule if one fires, and is a base leaf exactly if none does |
| `ExplainProofs.CutAtLimitIsDeep` | internal/engine/explain.go:123-169 | such a tree with fewer than 32 levels is complete: nothing in it was cut |
| `ExplainProofs.UnfiredIsLoaded` | internal/engine/explain.go:158-166 | in a stable model of the program over an input, a fact no rule with a body fires for is in that input or is a fact clause |
| `ExplainProofs.ExplanationsEndInLoadedFacts` | internal/engine/explain.go:123-169 | every base leaf of every tree over such a model is in its input or is a fact clause |
| `ExplainRuntime.IntendedExplanationsEndInLoadedFacts` | internal/engine/explain.go:46-109 | whenever the runtime's query is answered as intended, every base leaf of its explanations was loaded explicitly, came with the request, or is a fact clause |
| `ExplainRuntime.RunExplanationsEndInLoadedFacts` | internal/engine/explain.go:46-109 | so after every run of monotone programs, and whenever no rule negates a fact of the least model |
| `ExplainRuntime.StaleFactIsShownAsGiven` | internal/engine/explain.go:158-166 | otherwise a materialised fact that the request withdraws is explained as a base fact nobody loaded |
| `ExplainRuntime.ForeignRulesShowDerivedAsGiven` | internal/engine/explain.go:61-68 | with clauses of another program, none of which fires for a fact or states it, a fact that the store's own program derives is shown as given |
| `WorkflowProofs.AttemptsAreBounded` | multiagent/hydrated_executor.go:302-346 | executing a node calls its executor at most once per attempt left |
| `WorkflowProofs.RunIsBounded` | multiagent/hydrated_executor.go:93-149 | on any graph, cyclic or not, no node is visited more than maxRetries times and there are at most maxRetries·(maxRetries+1)·nodes executor calls |
| `WorkflowProofs.RunIsExplained` | multiagent/hydrated_executor.go:64-152 | every run is accounted for call by call: each visit made the executor calls its answers ask for, was left along the first edge that is unconditional or approved with all earlier ones rejected, or after a failure along the first error edge, and handed its output, or its own input, to that edge's target; where the visits end fixes status, output and error |
| `WorkflowProofs.CompletedRunIsClean` | multiagent/hydrated_executor.go:64-152 | a run is completed only if no visit and no condition failed, with the output of its last visit |
| `WorkflowProofs.NodeIsExplained` | multiagent/hydrated_executor.go:302-346 | a node's result and calls: agent lookup, then attempts until one succeeds, the retries run out or the back-off is cut short |
| `WorkflowProofs.ChoiceIsFirstApproved` | multiagent/hydrated_executor.go:348-379 | the edge taken is the first in list order that is unconditional or whose condition was approved; every earlier condition was asked and rejected, unless there is no evaluator; no edge, an undeclared target or a failed condition ends the walk |
| `WorkflowProofs.ErrorEdgeIsFirst` | multiagent/hydrated_executor.go:381-388 | the error edge is the first one out of the node whose condition begins with "error" |
| `WorkflowExecutor.StartNodeIsUnique` | core/workflow.go:81-113 | the start node does not depend on the order in which nodes are listed |
| `WorkflowExecutor.PickLeast` | core/workflow.go:93-112 | among candidate keys the least id is found whatever the order |
| `WorkflowExecutor.FindStartNode` | core/workflow.go:81-113 | the root if it is declared, else the least node without incoming edges, else the least node, or none if there are none |
| `WorkflowExecutor.RunNode` | multiagent/hydrated_executor.go:302-346 | the retry loop gives the result and the calls of the modelled attempts |
| `WorkflowExecutor.OutgoingOf` | core/workflow.go:71-79 | exactly the edges out of a node, in order |
| `WorkflowExecutor.FindNextNode` | multiagent/hydrated_executor.go:348-379 | the loop over outgoing edges takes the first whose condition holds, asking conditions in that order |
| `WorkflowExecutor.FindErrorEdge` | multiagent/hydrated_executor.go:381-388 | the first error edge out of a node, if there is one |
| `WorkflowExecutor.VisitOnce` | multiagent/hydrated_executor.go:93-149 | one round of the loop is one step of the walk, with the visit counts those of the trace |
| `WorkflowExecutor.Execute` | multiagent/hydrated_executor.go:64-152 | the loop computes the bounded walk from the start node |
| `WorkflowExecutor.WorkflowInstance.constructor` | core/workflow.go:178-190 | a new instance, as the executor takes it on, is running and has recorded nothing |
| `WorkflowExecutor.WorkflowInstance.SetCurrentNode` | core/workflow.go:193-199 | moving on completes the node left, once |
| `WorkflowExecutor.WorkflowInstance.MarkNodeCompleted` | core/workflow.go:202-207 | completed nodes are recorded without repeats |
| `WorkflowExecutor.WorkflowInstance.MarkNodeFailed` | core/workflow.go:210-213 | every failure is recorded in order |
| `WorkflowExecutor.WorkflowInstance.SetVariable` | core/workflow.go:228-231 | only the named variable changes |
| `WorkflowExecutor.SessionFailure` | multiagent/hydrated_executor.go:246-259 | a failed node takes the same branch as in the plain walk, and the instance records it |
| `WorkflowExecutor.SessionSuccess` | multiagent/hydrated_executor.go:261-282 | a successful node takes the same branch as in the plain walk, and the instance records it |
| `WorkflowExecutor.SessionVisit` | multiagent/hydrated_executor.go:213-282 | one round of the session loop is the same step of the walk as in the plain loop |
| `WorkflowExecutor.ExecuteWithSession` | multiagent/hydrated_executor.go:154-300 | from a fresh session it gives the same status, output, error and node results as the plain walk for every shared sequence of outcomes; the instance's status agrees, it lists the failed visits in order, and its completed nodes are exactly those that succeeded or were left along their error edge, once each; its variables hold the last input and the last output of every node |
| `WorkflowExecutor.FailedIsAlsoCompleted` | core/workflow.go:193-199 | a node that fails and has an error edge is listed both as failed and as completed |
| `AgentWorkflow.FindNodeByID` | multiagent/workflow_executor.go:310-317 | the first listed node with the id, or none if no node has it |
| `AgentWorkflow.IsStartNode` | multiagent/workflow_executor.go:261-268 | whether no unconditional edge leads to the node |
| `AgentWorkflow.FindStartNode` | multiagent/workflow_executor.go:249-259 | the first listed node that is a start node, else the first node |
| `AgentWorkflow.ExecuteWorkflow` | multiagent/workflow_executor.go:105-201 | the agent system's executor computes the same walk from its own start node, with conditions always evaluated and nodes failing without an agent |
| `AgentWorkflow.ListedRunIsBounded` | multiagent/workflow_executor.go:105-247 | the same limits on visits and executor calls, counted in listed nodes |
| `AgentWorkflow.ListedRunIsExplained` | multiagent/workflow_executor.go:105-201 | its runs are accounted for in the same way, with every condition asked and an agent needed for every node |
| `ParallelGroups.ReadyIsLayer` | multiagent/workflow_executor.go:430-436 | after r rounds a node has no pending predecessor exactly when it is in layer r |
| `ParallelGroups.InitialDegrees` | multiagent/workflow_executor.go:415-425 | the in-degrees count unconditional edges into every declared or targeted node |
| `ParallelGroups.ReadyNodes` | multiagent/workflow_executor.go:431-436 | exactly the nodes at degree zero, each once |
| `ParallelGroups.Release` | multiagent/workflow_executor.go:446-453 | taking one node out leaves the degrees counting the edges from the nodes that remain |
| `ParallelGroups.ReleaseAll` | multiagent/workflow_executor.go:446-453 | so does taking out a whole round |
| `ParallelGroups.TakeLayer` | multiagent/workflow_executor.go:430-453 | each round takes exactly one layer and leaves fewer nodes |
| `ParallelGroups.IdentifyParallelGroups` | multiagent/workflow_executor.go:414-457 | it ends on every graph; the groups are exactly the layers with at least two nodes, in order |
| `ParallelGroups.LayersRunOut` | multiagent/workflow_executor.go:430-454 | there are no more layers than nodes, so the groups cover all of them |
| `ParallelGroups.LayerIsLongestPath` | multiagent/workflow_executor.go:414-457 | a node is in layer r exactly when every unconditional path into it starts at a known node and the longest has r edges |
| `ParallelGroups.NoPathWithinLayer` | multiagent/workflow_executor.go:414-457 | no unconditional path joins two members of a layer |
| `ParallelGroups.CycleIsNeverTaken` | multiagent/workflow_executor.go:430-454 | a node on a cycle has incoming walks of every length, so no round takes it |
| `ParallelGroups.AllPlacedExactlyWhenAcyclic` | multiagent/workflow_executor.go:414-457 | every node is placed in some layer if and only if all unconditional edges come from known nodes and form no cycle |
| `CircuitProofs.RunKeepsDiscipline` | adapters/resilience/circuit_breaker.go:68-160 | in every interleaving an unchanged generation means unchanged state and opening time, and half-open means one probe under way |
| `CircuitProofs.AtMostOneProbe` | adapters/resilience/circuit_breaker.go:68-129 | the circuit is half-open exactly when one probe is in flight, and there are never two |
| `CircuitProofs.HalfOpenAfterTimeout` | adapters/resilience/circuit_breaker.go:68-107 | it becomes half-open only by a claim made after more than the reset timeout since it last opened; the fallback after the re-check is never reached |
| `CircuitProofs.OnlyClaimsLeaveOpen` | adapters/resilience/circuit_breaker.go:68-160 | while open, nothing but such a claim changes the breaker |
| `CircuitProofs.OpensExactlyAtLimit` | adapters/resilience/circuit_breaker.go:131-160 | while closed the counter is the number of counted failures since the last success or close and below the threshold; the circuit opens exactly at the report that reaches it; other reports change nothing |
| `CircuitProofs.ProbeDecides` | adapters/resilience/circuit_breaker.go:109-129 | in every interleaving a probe that reports closes the circuit with no failures exactly if it was no counted failure, and otherwise opens it again from that moment |
| `CircuitProofs.CircuitTurnsExactly` | adapters/resilience/circuit_breaker.go:68-160 | in every interleaving exactly which steps open and close the circuit; the opening time is the clock at the opening step and changes at no other |
| `CircuitProofs.LoneCall` | adapters/resilience/circuit_breaker.go:68-160 | a lone caller's steps are open to it, it is never sent back, and they leave the breaker as its one report says |
| `CircuitBreaker.CircuitBreaker.constructor` | adapters/resilience/circuit_breaker.go:59-65 | a new breaker is closed with no failures |
| `CircuitBreaker.CircuitBreaker.Admit` | adapters/resilience/circuit_breaker.go:68-107 | a caller is turned away exactly if the breaker is half-open, or open and not yet past its timeout; otherwise it goes on as the model's caller does |
| `CircuitBreaker.CircuitBreaker.Execute` | adapters/resilience/circuit_breaker.go:68-160 | a call that nothing interrupts runs the action exactly if the circuit is closed or open past its timeout, and takes the steps of a lone caller; an open circuit then closes with no failures unless the call is a counted failure, which keeps it open from then on; a closed one opens exactly at the failure that reaches the threshold |
| `CircuitBreaker.CircuitBreaker.Claim` | adapters/resilience/circuit_breaker.go:84-98 | claiming the probe under the write lock, in all three cases |
| `CircuitBreaker.CircuitBreaker.RunProbe` | adapters/resilience/circuit_breaker.go:109-129 | the report of a probe is the model's step, which `ProbeDecides` settles |
| `CircuitBreaker.CircuitBreaker.RunStandard` | adapters/resilience/circuit_breaker.go:131-160 | the state after an ordinary call reports |
| `QuadKeys.DecodeUndoesEncode` | internal/adapters/storage/graph/encoding.go:26-92 | for all four prefixes, decoding a key gives the quad back |
| `QuadKeys.EncodeUndoesDecode` | internal/adapters/storage/graph/encoding.go:60-92 | a key decodes exactly when it has 33 bytes and an index prefix, and then encodes to itself |
| `QuadKeys.LessIsNumeric` | internal/adapters/storage/graph/encoding.go:22-26 | byte order of big-endian words is numeric order |
| `QuadKeys.KeysInTupleOrder` | internal/adapters/storage/graph/encoding.go:22-57 | byte order of keys is numeric order of subject, predicate, object and graph in the sequence that names the index |
| `QuadKeys.KeyIsInjective` | internal/adapters/storage/graph/encoding.go:26-57 | no two prefixes or quads share a key |
| `QuadKeys.PutUint64` | internal/adapters/storage/graph/encoding.go:32-35 | writes eight big-endian bytes in place and nothing else |
| `QuadKeys.EncodeQuadKey` | internal/adapters/storage/graph/encoding.go:26-57 | the buffer ends up as the key of the permuted quad; an unknown prefix fails |
| `QuadStore.IndexesAgree` | internal/adapters/storage/graph/store.go:116-122 | the four indexes decode to the same set of quads |
| `QuadStore.GraphStore.constructor` | internal/adapters/storage/graph/store.go:69-94 | opening a database that an earlier store left restores the quads and the counter |
| `QuadStore.GraphStore.HasFact` | internal/adapters/storage/graph/store.go:109-114 | finding the key in the first index is membership in the set |
| `QuadStore.GraphStore.AddFact` | internal/adapters/storage/graph/store.go:105-135 | the set gains exactly the quad, all four indexes agree, and the counter, in memory and stored, is its size |
| `QuadStore.GraphStore.CountNew` | internal/adapters/storage/graph/store.go:152-171 | counts the quads of a batch that are new, repeats once |
| `QuadStore.GraphStore.AddFacts` | internal/adapters/storage/graph/store.go:147-200 | the same for a batch with any repeats |
| `QuadStore.Iterate` | internal/adapters/storage/graph/store.go:213-229 | keys are visited in order and undecodable ones skipped, until the callback or the limit says stop |
| `QuadStore.GraphStore.Scan` | internal/adapters/storage/graph/store.go:204-232 | lists, in tuple order and without gaps, the stored quads from the seek key on; it stops early only at the limit or when the callback declines |
| `Quoting.EscapeString` | internal/engine/reflection.go:72-97 | the byte loop computes the escaped text |
| `Quoting.QuotedReadsBack` | internal/engine/reflection.go:72-97 | a quoted text ends at its own closing quote, whatever it contains and whatever follows |
| `Quoting.EscapeIsUndoneExactly` | internal/engine/reflection.go:72-97 | reading it gives the original back if and only if its only control bytes are newline, return and tab |
| `Quoting.QuotedIsInjective` | internal/engine/reflection.go:72-97 | such texts are told apart by their quoted forms |
| `Flatten.Flattener.FlattenRecursive` | internal/engine/flattener.go:26-114 | appends exactly the facts of the value and draws ids from the shared counter |
| `Flatten.Flattener.AddEntry` | internal/engine/flattener.go:56-107 | one entry: a link and the nested facts, one primitive fact, or nothing for null |
| `Flatten.FlattenValue` | internal/engine/flattener.go:10-24 | the facts of the whole value, numbered from one |
| `Flatten.EveryContainerIsLinkedOnce` | internal/engine/flattener.go:26-114 | every nested container has its own fresh id and exactly one incoming link, in order |
| `FlattenProofs.EmitIsFunctional` | internal/engine/flattener.go:26-168 | no node has two facts for one key |
| `FlattenProofs.FactsDetermineTree` | internal/engine/flattener.go:10-168 | under a root that is none of the ids given out below it, the facts represent the value's tree and no other, up to dropped nulls and arrays keyed by index |
| `FlattenProofs.TreeOfArray` | internal/engine/flattener.go:81-106 | the tree of an array holds the items that are not null, each under its index in decimal, and nothing else |
| `FlattenProofs.TreeOfObject` | internal/engine/flattener.go:44-79 | the tree of an object holds the fields that are not null, each under its key, and nothing else |
| `FlattenProofs.ReadsBackExactly` | internal/engine/flattener.go:10-168 | they do so if and only if the root is none of those ids |
| `FlattenProofs.ClashingRootHasLargerTree` | internal/engine/flattener.go:65-71 | under a root that is one of them, facts that represent the value's tree represent a larger one too |
| `FlattenProofs.RootsAreNoIds` | cmd/mkit/commands/eval/run.go:136 | none of the roots in use, `Req` and `Output` of the gates, `input` and `root` of the command line, is ever a generated id |
| `FlattenProofs.RootMustNotBeAnId` | internal/engine/flattener.go:65-71 | under a root that is a generated id, one value's facts can represent two trees |
| `FlattenTexts.RenderIsInjective` | internal/engine/flattener.go:65-166 | facts without stray control bytes that differ have different texts |
| `FlattenTexts.TextReadsBack` | internal/engine/flattener.go:123-168 | the text of every fact reads back as its predicate, node, key and value, but for the control bytes that escaping loses |
| `FlattenTexts.TextsDetermineTree` | internal/engine/flattener.go:10-168 | payloads without stray control bytes that give the same texts are the same tree |
| `Gate.CollectTiered` | internal/engine/solver.go:806-818 | the callback collects exactly what `TieredMatchesAreListed` says of the solutions delivered |
| `Gate.CollectPlain` | internal/engine/solver.go:829-835 | matches of the two-place query are of unknown tier |
| `Gate.PickBest` | internal/engine/solver.go:847-852 | the loop computes the best match |
| `Gate.EvaluateGateWithTrail` | internal/engine/solver.go:728-946 | the gate's error and trail for every combination of answers and failures |
| `Gate.ViolationTierFromDecision` | internal/supervisor/sdk_adapter.go:44-58 | the fold computes the tier of the most severe rule, and the blocking default without a trail |
| `Gate.PolicyViolationFromResult` | internal/supervisor/action.go:216-247 | names the first rule of the blocking tier, or else the first with a definition |
| `Gate.ExecuteInternal` | internal/supervisor/action.go:38-158 | the action runs exactly if the answers to the pre-check let it; its output is returned exactly if those to the post-check do too; verifier failures surface as such, and violations carry the reported rule |
| `GateProofs.TieredMatchesAreListed` | internal/engine/solver.go:806-818 | the halts collected are, in order, all solutions with a reason, each with its reason and its own tier, unknown exactly if that is missing or empty |
| `GateProofs.PlainMatchesAreUntiered` | internal/engine/solver.go:829-835 | two-place halts are collected like three-place ones without a tier |
| `GateProofs.PreVerdictExactly` | internal/supervisor/sdk_adapter.go:227-249 | an answered pre-check passes exactly if no query halts; otherwise its tier is the severest one given, missing and unnamed tiers counting as T1 |
| `GateProofs.PostVerdictExactly` | internal/supervisor/sdk_adapter.go:196-225 | an answered post-check passes exactly if no query halts; otherwise its tier is the highest named one, or T1 if none is named |
| `GateProofs.DenialIsExplained` | internal/supervisor/sdk_adapter.go:196-249 | a denial gives the reason of a halt that no other outranks, or the one-place message; the post-check puts the rule id first and has a default for an empty reason |
| `GateProofs.TierNamesCorrespond` | internal/supervisor/action.go:195-207 | tier names and the supervisor's tiers correspond one to one, and any other name counts as T1 |
| `GateProofs.BestIsFirstOfHighest` | internal/engine/solver.go:702-715 | the best match is the first whose tier no other outranks |
| `GateProofs.MostSevereOutranks` | internal/supervisor/sdk_adapter.go:44-75 | the most severe tier is that of some rule, and no rule with a tier is more severe |
| `GateProofs.PreCheckBlocksExactly` | internal/supervisor/sdk_adapter.go:227-249 | over the answers themselves: blocks exactly when the engine gave no answer, only the one-place or two-place halt holds, or some three-place halt is given a tier other than T2 and T3 |
| `GateProofs.PostCheckBlocksExactly` | internal/supervisor/sdk_adapter.go:196-225 | over the answers themselves: blocks exactly when the engine gave no answer, only the one-place or two-place halt holds, some three-place halt is given T0 or T1, or there are such halts and none is given T0 to T3 |
| `GateProofs.GatesDifferExactly` | internal/supervisor/action.go:135-153 | on the same answers the post-check never blocks more, and they differ exactly when unknown halts stand beside T2 or T3 ones and none is T0 or T1 |
| `GateProofs.UserHaltHidesUnknownHalt` | internal/supervisor/action.go:135-153 | an unknown halt blocks an output alone and not beside a T3 halt |
| `GateProofs.VerdictsGoByTiers` | internal/engine/solver.go:846-852 | neither verdict depends on the order or number of halts, only on the set of their tiers |
| `GateProofs.FailedTieredQueryBlocksExactly` | internal/engine/solver.go:820-843 | when the three-place query fails without a match, both gates block exactly if one of the other two queries fails or halts |
| `GateProofs.FailedTieredQueryIsIgnored` | internal/engine/solver.go:820-824 | a failure of that query alone lets everything pass |
| `GateProofs.SharedFailureBlocks` | internal/engine/solver.go:728-946 | when the queries of a gate share one evaluation, its failure always blocks, in both gates |
| `GateProofs.ReportedTierBlocked` | internal/supervisor/action.go:195-247 | the reported tier always translates to the tier that blocked |
| `GateProofs.PreCheckNamesResponsibleRule` | internal/supervisor/action.go:209-247 | a pre-check that denies on halts names one of those the engine gave, of the tier under which it denies |
| `GateProofs.OutputIsLetThroughExactly` | internal/supervisor/action.go:38-158 | for every request, with or without context, action name and atoms: the exact condition on the answers under which the action is reached, and under which its output gets out |
| `LoopClient.IsSemanticallySimilar` | sdk/loop.go:573-588 | equal, equal after normalisation, or one normal form inside the other, neither empty |
| `LoopClient.IsFeedbackLoop` | sdk/loop.go:392-398 | finds whether any earlier hint is similar |
| `LoopClient.Session.constructor` | sdk/loop.go:88-113 | a session starts with the retries and hints it was hydrated with |
| `LoopClient.Session.HandleExecutionError` | sdk/loop.go:308-331 | a rejection retries within the limit and leaves the hints alone |
| `LoopClient.Session.HandleDecision` | sdk/loop.go:354-411 | the new parameters and result for every decision |
| `LoopClient.Session.ExecuteSingleStep` | sdk/loop.go:183-273 | one step: execution, steering, checkpoint, decision, in that order |
| `LoopClient.Session.TakeTurn` | sdk/loop.go:123-176 | one turn of the loop and how it ends |
| `LoopClient.Session.RunLoop` | sdk/loop.go:68-179 | the loop computes the modelled run under the caller's step limit, or else the client's, or else ten |
| `LoopProofs.RunIsChecked` | sdk/loop.go:68-179 | at least one execution unless cancelled or unknown, and at most as many as the step limit; the first shows the restored hints, each later one has the reason its predecessor gives and the feedback it left; success is the last envelope and its decision is none of RETRY, ROUTE, HALT; at most one checkpoint, by that execution, with the audit records of exactly the earlier ones |
| `LoopProofs.RunEndsExactly` | sdk/loop.go:68-272 | every run is accounted for by what happened around it: what each reply came to, a steering decision counting only if steering is on and the action left the decision open; why each execution was followed by another; and which error or envelope ends it under which step limit |
| `LoopProofs.SimilarExactly` | sdk/loop.go:573-588 | two hints are similar exactly if they are equal, equal once normalised, or one of them, not empty, is then found inside the other |
| `LoopProofs.CallsResume` | sdk/loop.go:88-113 | each call on a session first executes its own action on the payload and with the hints of the last checkpoint, or afresh, and leaves its checkpoint or the old one |
| `LoopProofs.RetriesAreBounded` | sdk/loop.go:308-331 | never more than three retries in a row, those brought from an earlier session included |
| `LoopProofs.NoFeedbackLoop` | sdk/loop.go:385-411 | between routes no two hints that led to a retry are similar |
| `LoopProofs.NoLoopAcrossSessions` | sdk/loop.go:385-411 | before the first route no hint that leads to a retry is similar to one restored from an earlier session |
| `LoopProofs.ShownHintsAreDissimilar` | sdk/loop.go:276-281 | no execution is ever shown two similar hints, restored ones included |
| `LoopProofs.SessionsStaySound` | sdk/loop.go:88-113 | over any number of calls on a session, stored hints are pairwise dissimilar and no more than the stored retries |
| `LoopProofs.SessionsStayBounded` | sdk/loop.go:88-113 | over any number of calls the stored retries never exceed three |
| `RateLimiter.RateLimiter.constructor` | providers/predicates/predicates.go:44-50 | a new limiter has counted nothing |
| `RateLimiter.RateLimiter.IsExceeded` | providers/predicates/predicates.go:54-72 | the answer depends only on the earlier calls for the same key, as modelled |
| `RateLimiter.RateLimiter.Reset` | providers/predicates/predicates.go:75-79 | forgets every call |
| `RateLimiterProofs.AllowedExactly` | providers/predicates/predicates.go:54-72 | of every window exactly the first max(1, limit) calls pass |
| `RateLimiterProofs.BurstIsBounded` | providers/predicates/predicates.go:54-72 | in any stretch of time no longer than a window at most 2·max(1, limit) − 1 calls pass |
| `RateLimiterProofs.BurstIsReached` | providers/predicates/predicates.go:54-72 | for every limit of two or more that bound is reached |
| `RateLimiterProofs.SlidesExactly` | providers/predicates/predicates.go:42-72 | no such stretch passes more than one window's worth if and only if the limit is at most one or the window is empty |
| `DictProofs.EnteringIsConsistent` | internal/adapters/storage/dict/sharded.go:71-75 | a new text under an unused id keeps the maps of every shard inverse and ids in one shard only |
| `DictProofs.GetOrCreateIsConsistent` | internal/adapters/storage/dict/sharded.go:53-76 | an uninterrupted call publishes one id for the text and changes nothing else |
| `DictProofs.LoadedIsConsistent` | internal/adapters/storage/dict/sharded.go:97-112 | loading distinct texts and ids leaves exactly those, with the counter past all of them |
| `DictProofs.RunKeepsGood` | internal/adapters/storage/dict/sharded.go:53-76 | every interleaving of read, lock, re-check, allocate and publish steps keeps all invariants and every published id |
| `DictProofs.IdsAreOneToOne` | internal/adapters/storage/dict/sharded.go:53-112 | after a load phase, over every interleaving, any two loaded or returned texts are equal exactly when their ids are |
| `DictProofs.LookupUndoesCall` | internal/adapters/storage/dict/sharded.go:84-95 | looking up a published id, loaded or returned, finds its text whatever other calls do between the shards scanned |
| `DictProofs.LookupAtAnyMoments` | internal/adapters/storage/dict/sharded.go:84-95 | so at whatever moments of a run each shard is scanned |
| `DictProofs.ScanMisses` | internal/adapters/storage/dict/sharded.go:84-95 | an id nobody published is not found |
| `DictProofs.AloneIsUninterrupted` | internal/adapters/storage/dict/sharded.go:53-76 | the steps of one thread alone amount to one uninterrupted call |
| `ShardedDict.ShardedDict.constructor` | internal/adapters/storage/dict/sharded.go:26-37 | 32 empty shards and the counter at 100 |
| `ShardedDict.ShardedDict.GetOrCreateID` | internal/adapters/storage/dict/sharded.go:53-76 | does the uninterrupted call in place and stays consistent while the counter has room |
| `ShardedDict.ShardedDict.GetString` | internal/adapters/storage/dict/sharded.go:84-95 | finds the text published under the id, and none exactly if there is none |
| `ShardedDict.ShardedDict.CompareAndSwap` | internal/adapters/storage/dict/sharded.go:105-110 | swaps exactly if the expected value is still there |
| `ShardedDict.ShardedDict.Load` | internal/adapters/storage/dict/sharded.go:97-112 | enters the pair and ends with the counter past its id |

## Left out

- The rule engine itself: parsing, analysis and evaluation are library code; programs are finite sets of ground rules, and an aborted evaluation leaves some part of the model.
- External predicates, temporal facts, aggregation and comparison atoms, for which the runtime also turns its cache off.
- Predicates that a program can add facts for but that are missing from its own list of derived predicates; a program's derived predicates are those of its rule heads.
- Loading policies from files and the text filters applied to them.
- Collisions of the 64-bit cache key and wrap-around of the version counters; keys and versions are taken as distinct values.
- RuntimeProofs.CacheHitIsFresh: claims freshness only for runs whose loads into a ready runtime parse fully or add nothing new, because other loads break it (`UncleanLoadBreaksCoherence`, `StaleHitExactly`).
- RuntimeProofs.AnswerIsFresh: is about the same runs, for the same reason.
- Tiers, bindings and rendering of explanations.
- Prover.Prover.Explain: lists stored facts in an arbitrary order, because the store does not promise one.
- Resuming a paused workflow session, cancellation, and timeouts; sessions start afresh.
- The execution of parallel groups.
- AgentWorkflow.ExecuteWorkflow: hands conditions the same facts as the plain executor, where the code lists an output stored under the name of another fact beside it.
- WorkflowExecutor.ExecuteWithSession: promises the plain walk only for definitions whose nodes have their non-empty key as id and whose error edges lead to declared nodes, because the session goes by ids.
- Failing database transactions, the counter bumped before a failing commit, garbage collection, opening and closing of the database.
- QuadStore.GraphStore.Scan: covers keys that start with the index prefix, as the iterator is restricted to them.
- Cyclic or shared payload references, floating-point numbers and struct leaves in flattened payloads.
- Flatten.Flattener.FlattenRecursive: collects facts as values; their texts are those of `FlattenTexts.Render`.
- FlattenProofs.FactsDetermineTree: needs distinct keys in every object, which is what a map gives.
- How gate queries are answered: the answers of the three halt queries, the message and the rule id are parameters of one gate evaluation.
- Conversion of payloads, labels and metadata into request facts, and the filter on predicate names.
- Chat history, recall and memorising in the loop, backoff times, and the text of errors.
- Non-string metadata values other than the decision.
- The process-wide table of rate limiters and its eviction.
- DictProofs.IdsAreOneToOne: assumes that the 64-bit counter does not wrap during the run and that loading is over before other calls begin.
- The hash of the dictionary; any function from strings to numbers will do.
- Scoring, pruning, steering rules, gene compilation, configuration, command line, telemetry and the model providers.
