# A verified model of the agent control plane

This project models, in Dafny, the state machines that keep an agent platform's
control plane correct, and proves what they promise. Each module follows one part
of the repository:

- `WorkflowGraph`, `WorkflowReconcile`: validation of a workflow's task graph with
  Kahn's algorithm, ready and skipped tasks, and one reconciliation of a Workflow
  against its Tasks and its merge-patched status.
- `WorkflowRuns`, `WorkflowProgress`, `WorkflowOverlap`: every run of that controller,
  with any number of overlapping reconciliations that read stale Task listings and
  stale Workflow bodies, crash between any two writes, and are repeated. Safety, no
  deadlock and bounded work hold of all runs; a status write is exact under a stated
  condition.
- `WorkflowSerial`, `WorkflowConvergence`: runs in which at most one reconciliation is
  open at a time, while Tasks start and end and the controller crashes between any two
  of its steps: status writes are exact and the Workflow converges. Quiescence is
  stated of a reconciliation that is repeated with nothing in between.
- `MergePatch`: JSON merge patches (section 2 of RFC 7396), to show that the status
  patches mean what the controller model says.
- `TaskExecution`, `Retry`: the handler that executes a Task, under redelivery and
  crashes, and the retry loop with its deadline.
- `NativeDispatch`: the native dispatch worker as a state machine of any number of
  processes that claim, crash and resume at any point.
- `RuntimeControl`: the runtime manager, which persists intent before effect.
- `AgentDefinitions`, `AgentDefinitionStore`: the life of an agent definition, and
  its repository with version check and tombstones under every interleaving.
- `Authoring`: revisions of a digital employee from draft to approval.
- `CanonicalJson`, `JsonReader`: the canonical JSON printer of the release contract, and
  a reader of JSON and UTF-8 that is defined without it.
- `ContinuityEvidence`: the hash-chained evidence of the continuity monitor, its
  producer and its validator.
- `StartupStderr`: the bounded line splitter of a child's standard error.
- `Wrappers`, `Sequences`: shared types and facts about sequences.

Code that updates objects or variables step by step is modelled by classes and
loops whose contracts tie the new state to a specification; the properties are
proved of that specification. Concurrent behaviour is modelled by state machines
whose steps are the atomic writes.

## What the model assumes

- The spec of a Workflow is fixed, its Tasks are not deleted, and creating a Task
  whose name is taken answers 409. Task resource names have the form
  `<workflow>-<task>`, which two workflows can share (`a-b` with task `c`, `a` with
  task `b-c`); the model assumes that a Workflow owns the names of its Tasks.
- The coordinator that executes a Task reports through its outcome or raises an
  exception that is no TaskExecutionError; its inner workings are not modelled.
- SHA-256 digests, and the revision identifiers made from them, are injective;
  uuids are new when they are made. Clocks, probes, provider answers, transport
  outcomes and crashes are parameters that the theorems quantify over.
- Text normalization, field validators, binding checks and timestamps are
  parameters or left out; where they can reject an input, the model has that error.

## Findings

- Deprecation is not permanent: of a deprecated definition that is enabled and not
  archived, any successful edit, validation, review, publication or successor makes
  it eligible again (`AgentDefinitions.DeprecationEnds`). Archiving is permanent.
- Overlapping reconciliations can leave a `taskRef` on a node that is reported as
  Pending, because a merge patch cannot remove a field that it does not mention
  (`WorkflowOverlap.OverlappingWritesLeaveFields`). On every reachable state a write is
  exact if and only if the writer is up to date in the sense of
  `WorkflowOverlap.OverlappingWriteIsExactIff`.
- The canonical printer sorts keys by code point. The keys of an object come in the
  UTF-16 order of section 3.2.3 of RFC 8785 if and only if no two of them first differ
  in a character above U+FFFF against one of U+E000 to U+FFFF
  (`CanonicalJson.ObjectKeyOrderIff`, with `CanonicalJson.KeyOrderDiffers` as a failing
  pair). The contract's own keys are ASCII and not affected.
- The runtime manager records a newly accepted REPLACE as OBSERVED without replacing
  anything exactly when the runtime looks replaced and an earlier fact shows the effect
  of another command with the same identity (`RuntimeControl.ReplacementSkippedIff`), so
  command identities must not be reused. A request lifts the guard against repeating an
  ambiguous effect, also when it repeats the desired command
  (`RuntimeControl.RequestLiftsTheGuard`).
- The retry loop sleeps as often as it calls exactly when the deadline passes during a
  delay (`Retry.SleepCount`). So its total sleep is bounded by
  `max(initial, 5) * (2^sleeps - 1)`, and exceeds the bound with calls less one in the
  exponent exactly when the delays up to that point are longer than it
  (`Retry.SleepBoundByCalls`, `Retry.SleepCanEqualCalls`).

## Model

| member | source | states |
|---|---|---|
| `WorkflowGraph.Graph.TopologicalOrder` | operator/src/agent_operator/workflow_graph.py:18-46 | Succeeds exactly on acyclic graphs, with a duplicate-free permutation of all tasks in which every dependency comes first |
| `WorkflowGraph.Graph.CountDependencies` | operator/src/agent_operator/workflow_graph.py:21-28 | The indegrees are the numbers of dependencies and the dependents of a task are exactly the tasks that name it, in order |
| `WorkflowGraph.Graph.Release` | operator/src/agent_operator/workflow_graph.py:37-41 | Counts down each dependent once and queues exactly those that reach zero |
| `WorkflowGraph.Graph.Exhausted` | operator/src/agent_operator/workflow_graph.py:33-46 | When the queue is empty, all tasks are ordered or the rest contains a cycle |
| `WorkflowGraph.Graph.StuckMeansCycle` | operator/src/agent_operator/workflow_graph.py:43-44 | A non-empty set of tasks that all wait within the set contains a dependency cycle |
| `WorkflowGraph.Graph.OrderMeansAcyclic` | operator/src/agent_operator/workflow_graph.py:43-46 | A graph with a topological order has no cycle |
| `WorkflowGraph.BuildWorkflowGraph` | operator/src/agent_operator/workflow_graph.py:49-148 | Succeeds exactly on well-formed acyclic declarations, returns their graph, and each error it reports is true of the declaration |
| `WorkflowGraph.CollectNames` | operator/src/agent_operator/workflow_graph.py:66-74 | Returns the declared names in order, or names a task that is declared twice |
| `WorkflowGraph.CheckDependencies` | operator/src/agent_operator/workflow_graph.py:78-96 | Reports an error exactly for dependencies that are repeated, unknown or the task itself, and the error fits |
| `WorkflowGraph.CheckSources` | operator/src/agent_operator/workflow_graph.py:106-138 | Reports an error exactly for result sources that are repeated, unknown or not among the dependencies, and the error fits |
| `WorkflowGraph.WellFormedGraph` | operator/src/agent_operator/workflow_graph.py:49-148 | A well-formed declaration gives a graph that meets what the ordering relies on |
| `WorkflowGraph.Graph.FindReadyTasks` | operator/src/agent_operator/workflow_graph.py:151-174 | Exactly the unscheduled tasks whose dependencies have all succeeded, in declaration order |
| `WorkflowGraph.Graph.FindSkippedTasks` | operator/src/agent_operator/workflow_graph.py:186-216 | Exactly the unscheduled tasks that reach an unsuccessful task through unscheduled tasks, in topological order |
| `WorkflowGraph.Graph.OnePassDecides` | operator/src/agent_operator/workflow_graph.py:200-216 | One pass in topological order decides being blocked by paths of any length |
| `WorkflowGraph.Graph.SkipAlong` | operator/src/agent_operator/workflow_graph.py:200-216 | The loop along any sequence of tasks skips what the pass of the specification skips |
| `WorkflowGraph.Graph.PassFindsBlocked` | operator/src/agent_operator/workflow_graph.py:200-216 | Along every topological order the pass skips exactly the tasks with a blocking path |
| `WorkflowGraph.Graph.SkipsAreOrderIndependent` | operator/src/agent_operator/workflow_graph.py:186-216 | Passes along any two topological orders skip the same tasks, each once, and assemble the same phases |
| `WorkflowGraph.Graph.KeptDependencyFirst` | operator/src/agent_operator/workflow_graph.py:203-214 | Skipped tasks come after the skipped tasks that they depend on |
| `WorkflowReconcile.ResolveTaskPrompt` | operator/src/agent_operator/workflow_controller.py:517-545 | The prompt is the declared one and, after a heading, one part for each source, in order, with the name and the result of that very source |
| `WorkflowReconcile.SkippedStatusMeans` | operator/src/agent_operator/workflow_controller.py:196-225 | A skip says DependencyFailed exactly when a dependency failed or timed out, and its message lists every dependency that cannot succeed, with its phase, in order |
| `WorkflowReconcile.PatchWorkflowStatus` | operator/src/agent_operator/workflow_controller.py:136-193 | No patch when the body already has the desired status; otherwise all desired nodes and a null for every other node |
| `WorkflowReconcile.PatchIsExact` | operator/src/agent_operator/workflow_controller.py:147-193 | A patch made from any body turns the current status into exactly the desired one if and only if nothing is left over: no stale node that the body does not know, no node field that the desired node lacks, and with nothing to patch no difference at all |
| `MergePatch.ApplyPatchIsMerge` | operator/src/agent_operator/workflow_controller.py:175-191 | Applying a status patch in the model is the merge of RFC 7396, section 2, on the JSON documents |
| `WorkflowReconcile.Workflow.MergePersistedSkips` | operator/src/agent_operator/workflow_controller.py:326-341 | The observed phases: those of the Tasks, and persisted Skipped entries of tasks without a Task |
| `WorkflowReconcile.Workflow.BuildWorkflowTaskStatuses` | operator/src/agent_operator/workflow_controller.py:548-581 | One node per declared task: the Task's phase and reference, a persisted skip, or Pending |
| `WorkflowReconcile.Workflow.MarkSkipped` | operator/src/agent_operator/workflow_controller.py:348-358 | Every skipped task gets a status built from phases in which the skips before it are marked |
| `WorkflowReconcile.Workflow.PropagateSkips` | operator/src/agent_operator/workflow_controller.py:330-358 | The effective phases and the skip statuses of exactly the blocked tasks |
| `WorkflowReconcile.Workflow.GatherResults` | operator/src/agent_operator/workflow_controller.py:370-390 | The results of all sources, or nothing when one is missing |
| `WorkflowReconcile.Workflow.CreateReady` | operator/src/agent_operator/workflow_controller.py:365-408 | Creates exactly the missing ready Tasks that have all results, and counts them |
| `WorkflowReconcile.Workflow.ReconcileWorkflow` | operator/src/agent_operator/workflow_controller.py:304-439 | Fails exactly on invalid specs and then changes nothing; otherwise creates the ready Tasks and writes the patch to the desired status |
| `WorkflowReconcile.ApiServer.CreateTask` | operator/src/agent_operator/workflow_controller.py:29-67 | Creation succeeds exactly for a free name and never changes an existing Task |
| `WorkflowRuns.StepKeepsInvariant` | operator/src/agent_operator/workflow_controller.py:304-439 | Every create, status write and Task move, from any earlier reading, keeps the run invariant |
| `WorkflowRuns.RunKeepsInvariant` | operator/src/agent_operator/workflow_controller.py:304-439 | Every run keeps the invariant |
| `WorkflowRuns.WholeRunSafety` | operator/src/agent_operator/workflow_controller.py:321-408 | In every run a Task is created at most once, only when all dependencies have succeeded, with a part of its prompt for each source that carries the result of that source's Task, and never for a task written as Skipped or skipped by a decision from any listing and body ever read, written or not |
| `WorkflowRuns.AncestorsSucceeded` | operator/src/agent_operator/workflow_controller.py:321-408 | Everything that an existing Task depends on, directly or not, has succeeded |
| `WorkflowRuns.SkipsAreDoomed` | operator/src/agent_operator/workflow_controller.py:330-356 | A skip decided from any earlier listing and body is of a task that depends on a failed one now |
| `WorkflowRuns.EffectiveIsTrue` | operator/src/agent_operator/workflow_controller.py:330-356 | The phases acted upon are those that the cluster alone implies |
| `WorkflowRuns.StaleBodyIsHarmless` | operator/src/agent_operator/workflow_controller.py:330-356 | On reachable states persisted skips are redundant: any earlier body gives the same phases |
| `WorkflowProgress.ReportedPhase` | operator/src/agent_operator/workflow_controller.py:286-301 | The Workflow is reported Succeeded exactly when all tasks have succeeded, and final exactly when all are settled |
| `WorkflowProgress.NoDeadlock` | operator/src/agent_operator/workflow_controller.py:304-439 | When all existing Tasks are terminal, a reconciliation can create a Task or reports a final phase |
| `WorkflowProgress.RunsDoNotDeadlock` | operator/src/agent_operator/workflow_controller.py:304-439 | The same in every reachable state, for every body that was ever current |
| `WorkflowProgress.StepDropsWork` | operator/src/agent_operator/workflow_controller.py:304-439 | Every step that changes a Task uses up some of the remaining work |
| `WorkflowProgress.RunsAreBounded` | operator/src/agent_operator/workflow_controller.py:304-439 | A run creates at most one Task per node and changes Tasks at most three times per node |
| `WorkflowSerial.WritesAreExact` | operator/src/agent_operator/workflow_controller.py:147-193 | The emitted merge patch gives exactly the desired status, also when Tasks were created or moved since the listing |
| `WorkflowSerial.StepKeepsSerialInvariant` | operator/src/agent_operator/workflow_controller.py:304-439 | Reading, listing, each creation, the write, a crash between any two of them and every Task move keep the invariant of serialized runs |
| `WorkflowSerial.SerialRunKeepsInvariant` | operator/src/agent_operator/workflow_controller.py:304-439 | Every serialized run keeps the invariant |
| `WorkflowSerial.SerialWritesAreExact` | operator/src/agent_operator/workflow_controller.py:410-437 | Every status write of every serialized run leaves exactly the desired status, whatever Tasks did meanwhile and whatever crashed before |
| `WorkflowSerial.SerialIsARun` | operator/src/agent_operator/workflow_controller.py:304-439 | Every serialized run is a run of the interleaved system |
| `WorkflowSerial.SerialConvergence` | operator/src/agent_operator/workflow_controller.py:304-439 | In every serialized run, a reconciliation that finds all Tasks ended and creates nothing reaches a final phase, Succeeded if and only if every task succeeded |
| `WorkflowSerial.FinishedStays` | operator/src/agent_operator/workflow_controller.py:304-439 | A finished Workflow stays finished in every continuation of a serialized run |
| `WorkflowConvergence.DesiredIsStable` | operator/src/agent_operator/workflow_controller.py:410-437 | The status that a reconciliation wants is the one the next wants, and the ready tasks stay the same |
| `WorkflowConvergence.Quiescence` | operator/src/agent_operator/workflow_controller.py:162-193 | Repeating a reconciliation that created nothing creates nothing and writes nothing |
| `WorkflowConvergence.RoundMakesProgress` | operator/src/agent_operator/workflow_controller.py:304-439 | A reconciliation followed by the end of all Tasks finishes the Workflow or has created a Task |
| `WorkflowConvergence.Convergence` | operator/src/agent_operator/workflow_controller.py:304-439 | As many such rounds as tasks, plus one, reach a final phase, Succeeded if and only if every task succeeded |
| `WorkflowConvergence.ReconcileIsARun` | operator/src/agent_operator/workflow_controller.py:304-439 | An uninterrupted reconciliation is a run of the interleaved system |
| `WorkflowOverlap.RunKeepsFields` | operator/src/agent_operator/workflow_controller.py:548-578 | In every run, every status refers to existing Tasks only, and gives a reason and a message together and to every skip |
| `WorkflowOverlap.DesiredFields` | operator/src/agent_operator/workflow_controller.py:548-578 | A desired node shows a listed Task's phase and reference, a reason exactly for a skip, and else is a bare Pending |
| `WorkflowOverlap.OverlappingWriteIsExactIff` | operator/src/agent_operator/workflow_controller.py:147-193 | In every reachable state a write from any earlier listing and body is exact if and only if the writer listed every Task that the status refers to and skips every task that it gives a reason for (or, with nothing to patch, the status is the body) |
| `WorkflowOverlap.OverlappingWritesLeaveFields` | operator/src/agent_operator/workflow_controller.py:548-578 | A valid workflow and a run of two overlapping reconciliations after which a written status is not the desired one |
| `Retry.ExecuteWithRetry` | operator/src/agent_operator/retry.py:41-93 | Computes the trace of calls, budgets, sleeps and ending that the description of the loop determines |
| `Retry.Decide` | operator/src/agent_operator/retry.py:67-91 | After a call: the ending that its outcome or the deadline forces, or the delay before the next call |
| `Retry.OneTrace` | operator/src/agent_operator/retry.py:41-93 | For each clock and sequence of outcomes exactly one trace fits the description |
| `Retry.CallIsMadeIff` | operator/src/agent_operator/retry.py:56-91 | Call n is made if and only if the arguments are valid, an attempt is left, every call before it is retried in time, and its start is before the deadline |
| `Retry.CallsAre` | operator/src/agent_operator/retry.py:56-68 | Each call starts where the clock and the delays put it, with the time left until the deadline |
| `Retry.EndingIs` | operator/src/agent_operator/retry.py:50-93 | The ending is that of the last call, the want of time, or the check of the arguments |
| `Retry.DelaysAre` | operator/src/agent_operator/retry.py:22-38 | Each delay is the initial one, or at least five seconds after RateLimited, times a power of two |
| `Retry.RateLimitedWaits` | operator/src/agent_operator/retry.py:30-34 | After RateLimited the delay is at least five seconds, doubled by every call before |
| `Retry.BudgetKept` | operator/src/agent_operator/retry.py:56-93 | For a monotone clock every call starts before the deadline with a budget in (0, timeout], total sleep stays below the timeout, the reported attempts are the calls made, and the trailing RuntimeError is unreachable |
| `Retry.TotalSleep` | operator/src/agent_operator/retry.py:22-38 | Total sleep is at most max(initial, 5) times 2^sleeps - 1 |
| `Retry.DoubledIsPower` | operator/src/agent_operator/retry.py:38-38 | The doubled delay is the base times a power of two |
| `Retry.SleepCount` | operator/src/agent_operator/retry.py:58-91 | As many sleeps as calls if and only if, for this clock and these outcomes, some delay after retried calls outlasts the deadline while an attempt is left; else one sleep fewer |
| `Retry.SleepBoundByCalls` | operator/src/agent_operator/retry.py:22-91 | Total sleep exceeds max(initial, 5) times 2^(calls - 1) - 1 if and only if the deadline passes during a delay and the delays up to it are longer than that |
| `Retry.LongDelaysBreakBound` | operator/src/agent_operator/retry.py:22-91 | From an initial delay of five seconds on, it exceeds it if and only if the deadline passes during a delay |
| `Retry.SleepCanEqualCalls` | operator/src/agent_operator/retry.py:58-91 | A clock for which one call and one sleep exceed the bound by calls less one |
| `Retry.FinalFailuresCallOnce` | operator/src/agent_operator/retry.py:71-76 | An operation without retryable failures is called at most once |
| `TaskExecution.TaskResource.CreateTask` | operator/src/agent_operator/task_controller.py:226-381 | A complete delivery leaves managed and ended Tasks alone, fails a replay, and else writes Running first and then Succeeded with a result, TimedOut, Failed or nothing, each exactly by the timeout, the clock and the one execution |
| `TaskExecution.TraceMeans` | operator/src/agent_operator/task_controller.py:329-365 | How the retried operation ends, by the timeout, the clock and the one execution |
| `TaskExecution.UninterruptedDelivery` | operator/src/agent_operator/task_controller.py:226-381 | The same of a delivery in a run that does all its steps |
| `TaskExecution.OneRun` | operator/src/agent_operator/task_controller.py:329-359 | A delivery runs the coordinator at most once, and a success is the result of that run |
| `TaskExecution.DeliveryKeeps` | operator/src/agent_operator/task_controller.py:245-381 | Any part of a delivery keeps the Task sound and leaves terminal Tasks alone |
| `TaskExecution.ExecutedAtMostOnce` | operator/src/agent_operator/task_controller.py:248-263 | Over any sequence of deliveries and crashes the coordinator runs at most once, Succeeded carries a result, and every version of the Task is a legal move of the workflow model |
| `TaskExecution.TerminalStays` | operator/src/agent_operator/task_controller.py:248-250 | Terminal phases are absorbing |
| `TaskExecution.RedeliverySettles` | operator/src/agent_operator/task_controller.py:251-263 | A redelivery that finds Running fails the Task without another run |
| `NativeDispatch.StepKeeps` | operator/src/agent_operator/native_dispatch_reconciler.py:240-334 | Every step of every process, crashes included, keeps the protocol invariant |
| `NativeDispatch.PermitStepKeeps` | console/backend/src/agent_console/execution_postgres.py:505-610 | APPENDED licenses one process for a command that nobody is licensed for and that was never invoked |
| `NativeDispatch.InvokeKeeps` | operator/src/agent_operator/native_dispatch_reconciler.py:280-296 | The invocation uses up the licence |
| `NativeDispatch.CreateKeeps` | operator/src/agent_operator/native_dispatch_reconciler.py:129-180 | A process goes on only with a Task that carries its own claim |
| `NativeDispatch.ObserveKeeps` | operator/src/agent_operator/native_dispatch_reconciler.py:336-380 | What a process observes of its Task was reported by an actual invocation |
| `NativeDispatch.RunKeeps` | operator/src/agent_operator/native_dispatch_reconciler.py:240-334 | Every run keeps the invariant |
| `NativeDispatch.AtMostOnceDispatch` | operator/src/agent_operator/native_dispatch_reconciler.py:240-380 | In every run the transport is invoked at most once per command, completions are SUCCEEDED or FAILED as that invocation ended and agree with each other, and the create_task handler executes no worker-owned Task |
| `NativeDispatch.ReplayOnlyObserves` | operator/src/agent_operator/native_dispatch_reconciler.py:252-259 | After REPLAYED a process cannot reach the transport before it takes a new claim |
| `NativeDispatch.ClaimMeans` | console/backend/src/agent_console/execution_postgres.py:413-458 | A claim is given exactly of a queued or claimed command, under a new generation |
| `NativeDispatch.ResumeMeans` | console/backend/src/agent_console/execution_postgres.py:460-480 | A started effect is resumed exactly by its own worker, under the same claim |
| `NativeDispatch.PermitMeans` | console/backend/src/agent_console/execution_postgres.py:505-610 | APPENDED exactly to the holder of a claimed row with a valid lease and a grant, REPLAYED exactly for an effect started for the same Task |
| `NativeDispatch.ClaimLeadsToInvocation` | operator/src/agent_operator/native_dispatch_reconciler.py:248-281 | A permitted claim leads to a Task that carries it, correlated and Running, and to one invocation |
| `NativeDispatch.OutcomeIsCompleted` | operator/src/agent_operator/native_dispatch_reconciler.py:281-321 | In every run a clear outcome that is recorded, observed and finished completes the command with that outcome |
| `NativeDispatch.CompletionAddedIff` | operator/src/agent_operator/native_dispatch_reconciler.py:312-321 | A completion is added exactly by finishing with a terminal observation |
| `NativeDispatch.OutcomeIsFinal` | operator/src/agent_operator/native_dispatch_reconciler.py:284-310 | Once a worker's Task shows an outcome it keeps it in every continuation of the run |
| `NativeDispatch.StepKeepsFence` | console/backend/src/agent_console/execution_postgres.py:482-503 | From the permit on a process keeps the claim: nobody takes over a started effect or correlates it with another Task |
| `NativeDispatch.DoubtIsSettled` | console/backend/src/agent_console/execution_postgres.py:650-712 | An outcome in doubt closes the row of the command in every run, and the row stays closed |
| `NativeDispatch.UncertainCloses` | console/backend/src/agent_console/execution_postgres.py:650-712 | An observer without a terminal status closes the row if and only if it is closed already or not correlated with a Task that the observer did not see |
| `NativeDispatch.HandleKeeps` | operator/src/agent_operator/task_controller.py:238-243 | The create_task handler never touches a labelled Task |
| `RuntimeControl.InMemoryRepository.AppendDesired` | operator/src/agent_operator/runtime_manager.py:81-92 | Accepts a command exactly when it repeats the desired one or has a greater generation |
| `RuntimeControl.InMemoryRepository.AppendFact` | operator/src/agent_operator/runtime_manager.py:99-102 | Facts are appended under the runtime of their command |
| `RuntimeControl.RuntimeManager.RequestCommand` | operator/src/agent_operator/runtime_manager.py:124-138 | Persists the command before anything else, then the REQUESTED fact, or fails and changes nothing |
| `RuntimeControl.RuntimeManager.ReconcileRuntime` | operator/src/agent_operator/runtime_manager.py:140-208 | Does exactly what the case calls for: the effect, the recorded result and observation, or the error |
| `RuntimeControl.ReconcileOutcome` | operator/src/agent_operator/runtime_manager.py:140-208 | In every reachable state an effect is issued if and only if the reconcile is authorized, the answer can be recorded, the operation has an effect, the last fact leaves nothing in doubt and the runtime is not already in the desired state; with the provider call and the recorded result of every case |
| `RuntimeControl.RequestOutcome` | operator/src/agent_operator/runtime_manager.py:124-138 | A request is accepted exactly with authority and a repeated or newer command, and then persisted and recorded |
| `RuntimeControl.RuntimeManager.IssuedBefore` | operator/src/agent_operator/runtime_manager.py:152-156 | Finds whether some earlier fact of this command identity is APPLIED or OBSERVED |
| `RuntimeControl.RuntimeManager.NormalizeNative` | operator/src/agent_operator/runtime_manager.py:210-251 | The observation with the next identity, the desired generation and a deadline, or the error of its constructor |
| `RuntimeControl.FreshLook` | core/src/agent_core/runtime_control.py:97-143 | A fresh observation is never STALE, UNKNOWN exactly when missing or unknown, OBSERVED exactly when it satisfies the desired state |
| `RuntimeControl.StepKeeps` | operator/src/agent_operator/runtime_manager.py:124-208 | Every request and reconcile, interrupted or not, keeps the invariant |
| `RuntimeControl.EffectsFollowIntent` | operator/src/agent_operator/runtime_manager.py:124-208 | Each effect of each run is issued by a step before which its command is the persisted desired one, accepted by the repository in an earlier authorized request |
| `RuntimeControl.EffectsInOrder` | operator/src/agent_operator/runtime_manager.py:81-92 | In every run the effects on a runtime come in nondecreasing generation, one accepted command to a generation, each by the provider call of its operation |
| `RuntimeControl.ObservedMeansDone` | operator/src/agent_operator/runtime_manager.py:148-208 | Every fact of every run: OBSERVED carries a matching observation of that runtime and generation, none is STALE, and OBSERVED or APPLIED for REPLACE follows a replacement or a reused identity |
| `RuntimeControl.ReplacementHappened` | operator/src/agent_operator/runtime_manager.py:152-173 | With distinct command identities OBSERVED for REPLACE implies that this replacement ran |
| `RuntimeControl.ReplacementSkippedIff` | operator/src/agent_operator/runtime_manager.py:152-173 | The first reconcile of a newly accepted REPLACE records OBSERVED although the replacement never ran, if and only if the runtime looks replaced and an APPLIED or OBSERVED fact of another command has its identity |
| `RuntimeControl.ReusedIdSkipsReplacement` | operator/src/agent_operator/runtime_manager.py:152-173 | A START and a REPLACE with one identity: OBSERVED and no effect at all |
| `RuntimeControl.ObservationIdsDistinct` | operator/src/agent_operator/runtime_manager.py:232-236 | The observation identities recorded for one runtime are pairwise distinct as strings |
| `RuntimeControl.AmbiguousIsNotReissued` | operator/src/agent_operator/runtime_manager.py:174-185 | After an ambiguous fact no effect is issued on the runtime until an OBSERVED fact or the next request, in every run |
| `RuntimeControl.RequestLiftsTheGuard` | operator/src/agent_operator/native_runtime_adapter.py:51-54 | After any request, also a repeated one, a reconcile that sees nothing issues the effect again |
| `AgentDefinitionStore.InMemoryRepository.Get` | console/backend/src/agent_console/agent_definition_repository.py:95-100 | The stored record, or not found |
| `AgentDefinitionStore.InMemoryRepository.Create` | console/backend/src/agent_console/agent_definition_repository.py:129-136 | Succeeds exactly for a key that is neither stored nor deleted |
| `AgentDefinitionStore.InMemoryRepository.Replace` | console/backend/src/agent_console/agent_definition_repository.py:138-152 | Compare and swap on the version; the fact is appended to the stored facts |
| `AgentDefinitionStore.InMemoryRepository.DeleteDraft` | console/backend/src/agent_console/agent_definition_repository.py:154-170 | Deletes exactly at the expected version and leaves a tombstone |
| `AgentDefinitionStore.AgentDefinitionService.Create` | console/backend/src/agent_console/agent_definition_service.py:102-140 | Succeeds exactly with a name, acceptable content and a free key, and then stores the new draft; else changes nothing |
| `AgentDefinitionStore.AgentDefinitionService.Execute` | console/backend/src/agent_console/agent_definition_service.py:439-468 | Commits exactly when the version is the expected one and the command is permitted, the record then being what the command means; otherwise changes nothing |
| `AgentDefinitionStore.AgentDefinitionService.ListEligible` | console/backend/src/agent_console/agent_definition_service.py:348-360 | Exactly the published, enabled, unarchived and undeprecated definitions of the scope, each with its published revision |
| `AgentDefinitionStore.AgentDefinitionService.DeleteDraft` | console/backend/src/agent_console/agent_definition_service.py:329-346 | Deletes exactly unpublished and unreferenced definitions at the expected version |
| `AgentDefinitionStore.CommitSeesCurrent` | console/backend/src/agent_console/agent_definition_repository.py:138-152 | A commit succeeds only on the record that the client read |
| `AgentDefinitionStore.StepKeepsInvariant` | console/backend/src/agent_console/agent_definition_service.py:439-468 | Every write of every client keeps the history a chain |
| `AgentDefinitionStore.Linearizable` | console/backend/src/agent_console/agent_definition_service.py:329-346 | In every interleaving each key's history is one chain of legal transitions from a new draft, versions count the facts, deleted keys never return and no published or referenced definition is deleted |
| `AgentDefinitionStore.CommitMeans` | console/backend/src/agent_console/agent_definition_service.py:153-313 | Every committed write of every interleaving makes of the record what its command means |
| `AgentDefinitionStore.HistoryMeans` | console/backend/src/agent_console/agent_definition_service.py:153-313 | Any two successive records of a history are related by the meaning of a permitted command |
| `AgentDefinitionStore.CommandMovesDraft` | console/backend/src/agent_console/agent_definition_service.py:177-267 | A command changes the state of a revision only by validating, approving or publishing it as the draft, under its own digest |
| `AgentDefinitionStore.PublishedHasPath` | console/backend/src/agent_console/agent_definition_service.py:177-267 | The history of a published revision contains, in this order, a committed validation, an approval with its digest and its publication |
| `AgentDefinitionStore.PublicationIntegrity` | console/backend/src/agent_console/agent_definition_service.py:153-313 | In every run a published revision has such a history, never changes and stays approved by name and digest, and an archived definition is never eligible again |
| `AgentDefinitions.NewRecordSound` | console/backend/src/agent_console/agent_definition_service.py:102-140 | A new definition holds one draft with a true digest, and nothing validated, reviewed or published |
| `AgentDefinitions.NewRecordMeans` | console/backend/src/agent_console/agent_definition_service.py:102-140 | A new definition field by field: its one draft holds the given content |
| `AgentDefinitions.CommandMeans` | console/backend/src/agent_console/agent_definition_service.py:153-313 | When each command is permitted and what it changes, field by field: the content and predecessor of a new draft, the state of the draft, the pointers, switches, lifecycle, reviews and the recorded fact |
| `AgentDefinitions.CommandKeepsSound` | console/backend/src/agent_console/agent_definition_service.py:153-313 | Every command keeps digests true, pointers resolving, and reviews behind every published revision |
| `AgentDefinitions.CommandPreserves` | console/backend/src/agent_console/agent_definition_service.py:153-313 | No command changes a published revision, a recorded review or fact, or unarchives |
| `AgentDefinitions.ReviewNamesDraft` | console/backend/src/agent_console/agent_definition_service.py:240-267 | The review accepted for a publication names the very draft that is published |
| `AgentDefinitions.PublishedIsReviewed` | console/backend/src/agent_console/agent_definition_service.py:240-267 | A published revision was validated and approved under its own identity and digest |
| `AgentDefinitions.DeprecationEnds` | console/backend/src/agent_console/agent_definition_service.py:269-313 | A deprecated, enabled, unarchived definition becomes eligible exactly by commands other than lifecycle changes |
| `AgentDefinitions.DeprecatedThenEligible` | console/backend/src/agent_console/agent_definition_service.py:269-313 | A run in which a successor makes a deprecated definition eligible again |
| `Authoring.DeterministicDiff` | console/backend/src/agent_console/authoring.py:197-214 | Computes the field-ordered diff of the specification |
| `Authoring.DiffRoundTrip` | console/backend/src/agent_console/authoring.py:197-214 | Replaying the diff on the first values gives the second |
| `Authoring.DiffReverses` | console/backend/src/agent_console/authoring.py:197-214 | Undoing the diff on the second values gives the first |
| `Authoring.DiffMeans` | console/backend/src/agent_console/authoring.py:197-214 | One entry for every field that differs and no other, in the fixed order, with both values, Add and Remove exactly for a missing value |
| `Authoring.EmptyDiff` | console/backend/src/agent_console/authoring.py:197-214 | The diff is empty exactly between equal values |
| `Authoring.AuthoringBackend.CreateDraft` | console/backend/src/agent_console/authoring.py:242-264 | Succeeds exactly for a changed candidate of the same definition, and returns only DRAFT, REVIEW_REQUIRED or REJECTED revisions, existing ones unchanged |
| `Authoring.AuthoringBackend.RequestReview` | console/backend/src/agent_console/authoring.py:266-274 | Succeeds exactly on open revisions and moves only that one |
| `Authoring.AuthoringBackend.Decide` | console/backend/src/agent_console/authoring.py:276-332 | Decides each revision once, makes an approved one effective and supersedes all open ones; the late supersede branch is unreachable |
| `Authoring.SupersedeOpen` | console/backend/src/agent_console/authoring.py:327-331 | Supersedes exactly the open revisions |
| `Authoring.ChildOfEffective` | console/backend/src/agent_console/authoring.py:252-254 | A stored revision made from the effective one is open or rejected |
| `Authoring.ApprovedLineage` | console/backend/src/agent_console/authoring.py:276-332 | The approved revisions are one linear chain from root to effective, open drafts come from the effective one, and the stored diffs rebuild its values |
| `Authoring.ReplayRebuilds` | console/backend/src/agent_console/authoring.py:197-214 | Replaying the stored diffs along a lineage gives the values at its end |
| `Authoring.Session` | console/backend/src/agent_console/authoring.py:227-332 | After any sequence of calls, successful or not, the lineage facts hold from the values the backend started with |
| `CanonicalJson.JcsDomain` | scripts/acceptance/release_contract_v2.py:252-280 | The printer succeeds exactly on its domain |
| `CanonicalJson.SortedKeysAscend` | scripts/acceptance/release_contract_v2.py:270-279 | The printed keys ascend strictly by code point |
| `CanonicalJson.ValueUnique` | scripts/acceptance/release_contract_v2.py:252-280 | No printed value is the beginning of a different one |
| `CanonicalJson.JcsInjective` | scripts/acceptance/release_contract_v2.py:252-280 | Values with the same canonical text are equal |
| `JsonReader.PrintThenRead` | scripts/acceptance/release_contract_v2.py:252-280 | The text of every accepted value is a JSON text that an independent reader of RFC 8259 reads as that value |
| `JsonReader.Utf8ReadsBack` | scripts/acceptance/release_contract_v2.py:283-284 | An independent decoder of RFC 3629 reads the bytes of every string as that string |
| `JsonReader.BytesReadBack` | scripts/acceptance/release_contract_v2.py:283-284 | The canonical bytes of every accepted value decode to a text that is read as the value |
| `JsonReader.IntegerDomain` | scripts/acceptance/release_contract_v2.py:260-263 | Exactly the integers up to 2^53 - 1 in size are printed |
| `CanonicalJson.ArrayText` | scripts/acceptance/release_contract_v2.py:268-269 | An array is its items' texts in order, with commas and no white space |
| `CanonicalJson.ObjectText` | scripts/acceptance/release_contract_v2.py:270-279 | An object is one quoted key, colon and value for each key, ascending, with commas and no white space |
| `CanonicalJson.EscapesAreCanonical` | scripts/acceptance/release_contract_v2.py:266-267 | Characters are escaped as section 3.2.2.2 of RFC 8785 says: only where needed, short where possible, in lower case |
| `CanonicalJson.PreimageFields` | scripts/acceptance/release_contract_v2.py:287-292 | The preimage names its type, the product and the tool under their own keys |
| `CanonicalJson.JcsBytesInjective` | scripts/acceptance/release_contract_v2.py:283-284 | Values with the same canonical bytes are equal |
| `CanonicalJson.PairingDetermined` | scripts/acceptance/release_contract_v2.py:287-299 | Equal pairing preimage bytes mean equal product and tool provenance |
| `CanonicalJson.KeyOrderAgrees` | scripts/acceptance/release_contract_v2.py:273-279 | Two keys compare as in RFC 8785, section 3.2.3, if and only if they do not first differ in the stated character ranges |
| `CanonicalJson.ObjectKeyOrderIff` | scripts/acceptance/release_contract_v2.py:273-279 | The keys of an object are printed in the order of RFC 8785 if and only if no two of them disagree |
| `CanonicalJson.KeyOrderDiffers` | scripts/acceptance/release_contract_v2.py:273-279 | U+E000 and U+10000: a pair of keys printed in the other order |
| `CanonicalJson.AsciiKeysAgree` | scripts/acceptance/release_contract_v2.py:273-274 | An ASCII key is never affected |
| `ContinuityEvidence.CheckRecord` | scripts/acceptance/continuity_monitor.py:139-173 | Accepts a record exactly when it is admissible, in sequence, linked to the record before and unaltered |
| `ContinuityEvidence.ObservedSentinels` | scripts/acceptance/continuity_monitor.py:180-186 | The sentinels with a probe record |
| `ContinuityEvidence.HasInconsistency` | scripts/acceptance/continuity_monitor.py:187-198 | Finds whether any record shows a mismatch or an unhealthy service |
| `ContinuityEvidence.ValidateEvidence` | scripts/acceptance/continuity_monitor.py:128-199 | Accepts exactly the evidence that meets the acceptance predicate |
| `ContinuityEvidence.AcceptedMeans` | scripts/acceptance/continuity_monitor.py:136-199 | Accepted evidence field by field, with the accepted categories named |
| `ContinuityEvidence.EvidenceFile.Append` | scripts/acceptance/continuity_monitor.py:266-298 | Appends one record and keeps the file a chain of the entries so far |
| `ContinuityEvidence.EvidenceFile.Observe` | scripts/acceptance/continuity_monitor.py:308-327 | One round of probes, each compared with the first probe of its sentinel |
| `ContinuityEvidence.EvidenceFile.RunMonitor` | scripts/acceptance/continuity_monitor.py:300-336 | Writes the chain of the rounds that the clock and the stop file determine, and says how it ended |
| `ContinuityEvidence.Start` | scripts/acceptance/continuity_monitor.py:246-336 | Writes nothing for an invalid contract, otherwise the evidence of the run |
| `ContinuityEvidence.EndingMeans` | scripts/acceptance/continuity_monitor.py:303-333 | When a run ends: by the stop file after its last round, after the maximal runtime, or after 7200 rounds |
| `ContinuityEvidence.EvidenceEnds` | scripts/acceptance/continuity_monitor.py:300-333 | The opening and the closing records of a run that was stopped or expired |
| `ContinuityEvidence.EvidenceShows` | scripts/acceptance/continuity_monitor.py:308-327 | Each probe of each round has a record with its answers, MATCH exactly where it agrees with the first probe |
| `ContinuityEvidence.AcceptedIff` | scripts/acceptance/continuity_monitor.py:128-199 | A run's evidence is accepted exactly when it was stopped on request and every probe was healthy, listener-consistent and identical to its baseline; its length is within the bound |
| `ContinuityEvidence.ProperPrefixRefused` | scripts/acceptance/continuity_monitor.py:174-179 | Every proper prefix of a run's evidence is refused |
| `ContinuityEvidence.DigestDeterminesChain` | scripts/acceptance/continuity_monitor.py:165-173 | The last digest of a chain determines all its records |
| `ContinuityEvidence.SameDigestSameLog` | scripts/acceptance/continuity_monitor.py:165-173 | Two accepted logs with the same last digest are equal |
| `StartupStderr.Reader.Drain` | scripts/acceptance/isolated_browser_harness.py:1537-1561 | Consumes exactly the lines of at most LINE_LIMIT bytes and a non-empty unfinished last one, and sets truncated exactly when a line was longer, for every chunking |
| `StartupStderr.Reader.Take` | scripts/acceptance/isolated_browser_harness.py:1542-1554 | One byte keeps the buffer the unfinished line, never more than LINE_LIMIT bytes |
| `StartupStderr.SplitThenJoin` | scripts/acceptance/isolated_browser_harness.py:1542-1556 | The lines and the rest make up the bytes again, and contain no newline |
| `StartupStderr.JoinThenSplit` | scripts/acceptance/isolated_browser_harness.py:1542-1556 | Splitting finds any given lines again, so it is the only way to cut the bytes |
| `StartupStderr.ConsumedExactly` | scripts/acceptance/isolated_browser_harness.py:1537-1556 | Of a stream of given lines the short ones are consumed, and truncation is marked exactly for a longer one |
| `StartupStderr.ShortOnlyMeans` | scripts/acceptance/isolated_browser_harness.py:1542-1554 | What is kept are exactly the lines of at most 4096 bytes, each once and in their order |
| `StartupStderr.OversizedMeans` | scripts/acceptance/isolated_browser_harness.py:1549-1554 | A stream is marked exactly when one of its lines is longer than 4096 bytes |
| `StartupStderr.SameForEveryChunking` | scripts/acceptance/isolated_browser_harness.py:1541-1542 | Two chunkings of the same bytes leave the same lines and the same mark |

## Left out

- Kubernetes, kopf, HTTP, Docker, git and file system calls: they are the steps and parameters of the environment.
- PostgreSQL adapters: of the dispatch repository only the states of its rows are modelled; the definition repository is the in-memory one.
- The completion callback of the native dispatch worker: it may close the row or fail; what else it writes is not modelled.
- `NativeDispatch.StepKeeps`: run_once and run_claim are modelled as the steps of a process between which others run, not as one method; leases and authorization are parameters of the permit.
- `WorkflowReconcile.ApiServer.CreateTask`: does not model resource names, labels and owner references, only the task a resource stands for.
- `ContinuityEvidence.ValidateEvidence`: works on decoded records; UTF-8 and JSON decoding and the check for unknown fields are not modelled.
- `ContinuityEvidence.Start`: of the monitor contract the ports, service units and listener policies are not modelled, and a partial write of a record is a crash.
- `RuntimeControl.RuntimeManager.NormalizeNative`: health, readiness, limitation codes and correlations of an observation are not modelled; they affect no decision.
- `StartupStderr.Reader.Drain`: the classification of a consumed line into exception types and locations is not modelled; a line is recorded as it is.
- `Retry.ExecuteWithRetry`: seconds are real numbers, floating-point rounding is not modelled.
- `CanonicalJson.JcsInjective`: lone surrogates and dictionary keys that are not strings are not modelled, so neither are the errors for them.
- `AgentDefinitions.CommandKeepsSound`: binding validation is a parameter of the command, and timestamps, verified references and review reasons are not modelled.
- Names inside messages are quoted plainly; Python's escaping in repr is not modelled.
- Authoring input normalization, and capability matching and projection of definitions (rematch, project).
- Application routing, the frontend, release stages, schema validators, disclosure scans and experiments.
