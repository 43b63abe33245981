# Workflow execution engine — Dafny model

`executeWorkflow` runs a workflow of named steps. Each step record has an
`id` and a `next` list of successor ids. A step may run only once every
record listing it among its successors has completed.

The engine works in three parts:

- **Graph builder** (`initMappings`). It builds a successor map from id to
  `next` list, and an in-degree map from id to the number of occurrences of
  that id in all `next` lists. The in-degree map is a JavaScript `Map`, so
  it keeps its keys in first-insertion order.
- **Queue seeding** (`initExecutionQueue`). It starts the ready queue with
  the in-degree-0 ids, in that key order.
- **Clock loop.** Each tick:
  1. takes the current clock as its start clock and advances the clock;
  2. drains the whole queue into a batch and marks each member RUNNING;
  3. runs every member through the executor, which fails exactly the ids
     starting with "fail", and sets it to COMPLETED or FAILED with
     `finishedClock = startClock + 1`;
  4. for each completed member, decrements the positive in-degrees of its
     successors and pushes an id onto the queue when its in-degree reaches 0.

  The loop ends when the queue is empty. The workflow state, from id to
  step state, is the result.

The model is written in Dafny over values:

- The in-degree map is `Graph.DependencyMap`: a key order plus a count map,
  with `Set` behaving like `Map.prototype.set`.
- The successor map is a Dafny `map`.
- Each loop of the source is a method with a `while` or `for` loop, proved
  against a specification:
  - the loops of `InitMappings` and `CountSuccessors` against `Dedup` and
    `Counts`;
  - the loop of `InitExecutionQueue` against `ZeroInDegree`;
  - the successor loop of `Release` against `Remaining` (through
    `DecrementedBy`) and `PushedBy`;
  - the loop of `Settle` against `SettleAll` and `Released`;
  - the drain loop of `Dispatch` against a postcondition that states the new
    queue and state directly;
  - the clock loop of `ExecuteWorkflow` against the invariant
    `Invariants.Inv`, which yields `Engine.WorkflowContract` once the queue
    is empty.

  `DecrementOne` is the body of the successor loop and states its one-step
  effect directly.

`Engine.ExecuteWorkflow` is proved to return a state that satisfies
`Engine.WorkflowContract`, stated in terms of the step records alone:

- every declared id has a state; an id that is only named as a successor
  has a state only if it ran;
- every id that ran was settled by the executor, one tick after it started;
- an id runs exactly when every record listing it was consumed. A record is
  consumed when its id completed and it is the last record with that id,
  the one the successor map keeps. The empty-string id is the exception: it
  runs only if no record lists it;
- every id that ran started no earlier than the completion of each record
  listing it;
- every id that ran started in the tick in which a record listing it
  completed, or in tick 0 if no record lists it.

The contract determines the result (`Engine.ContractDetermines`): two states
that both satisfy it for the same steps are equal. So the same steps always
give the same final state, whatever order a batch is settled in.

The proof rests on a loop invariant (`Invariants.Inv`). Its central part
says: every in-degree, other than that of the empty string, equals the
number of occurrences of that id in the `next` lists of records not yet
consumed (`Dependencies.Pending`). The empty string keeps its built count,
because the successor loop never decrements it. The loop
terminates because every tick starts at least one id that had not started.

`Properties` derives consequences of the contract:

- the consistency check of the test helper;
- which ids a step that did not complete keeps WAITING;
- the exact result of each workflow shape in the test suite;
- the results for the source's edge cases: undeclared successors, duplicate
  successors, the empty-string id and redeclared ids.

The scenario lemmas require the ids that some record lists to be non-empty,
because a listed empty-string id is never released. An id that no record
lists may be empty: it runs in tick 0 like any other.

`Suite` calls `ExecuteWorkflow` on the test suite's workflows, with the test
suite's own step ids, and proves the exact resulting map for each.

## Model

| member | source | states |
|---|---|---|
| Scheduler.FailsIffPrefixed | src/workflow.ts:96-101 | The executor fails an id exactly when the id has at least four characters and starts with "fail". |
| Scheduler.Outcome | src/workflow.ts:50-59 | The state a dispatched step settles to is COMPLETED when the executor succeeds and FAILED otherwise. It carries the tick's start clock and finished clock. |
| Graph.InitWorkflowState | src/workflow.ts:106-111 | The initial state has exactly the declared ids as keys, every one WAITING. |
| Graph.DependencyMap.Set | src/workflow.ts:124-126 | Setting a key: an existing key keeps its place in the key order and a new key goes last. The key gets the new value and every other key keeps its value. |
| Graph.LastIndex | src/workflow.ts:122 | The record whose `next` list the successor map keeps for an id is the last record declaring that id. |
| Graph.InitMappings | src/workflow.ts:118-131 | The successor map sends every declared id to the `next` list of its last record. The in-degree keys are every declared or listed id, in first-seen order. Each in-degree is the number of occurrences of the id across all `next` lists, counted with multiplicity. |
| Graph.CountSuccessors | src/workflow.ts:125-127 | The inner loop adds one to the count of each successor occurrence, creating missing keys at the end of the key order. |
| Graph.InitExecutionQueue | src/workflow.ts:137-144 | The queue is exactly the keys whose in-degree is 0, each once, in the map's key order. |
| Dependencies.ListedCount | src/workflow.ts:125-126 | An id occurs in the concatenated successor lists exactly when some record lists it, so a declared id nobody lists has in-degree 0. |
| Dependencies.PendingNoneDone | src/workflow.ts:118-131 | Before anything completed, the pending count of every id is its in-degree as built. |
| Dependencies.PendingRelease | src/workflow.ts:62-80 | Completing a declared id releases exactly the occurrences in the `next` list of its last record. |
| Dependencies.PendingUndeclared | src/workflow.ts:62-63 | Completing an id that no record declares releases nothing. |
| Dependencies.PendingZero | src/workflow.ts:72-79 | Nothing is pending for an id exactly when every record listing it was consumed. |
| Scheduler.DecrementOne | src/workflow.ts:73-79 | One successor: the count drops by one exactly when the id is not empty and its count is not 0. The id is pushed exactly when that drop reaches 0. |
| Scheduler.Release | src/workflow.ts:72-80 | The successor loop leaves each non-empty count lowered by its occurrences, never below 0, and the empty id's count unchanged. It pushes, once each, exactly the ids whose count went from positive to 0. |
| Scheduler.DecrementedTwice | src/workflow.ts:72-80 | Two runs of the successor loop lower the counts like one run over the concatenated lists. |
| Scheduler.PushedTwice | src/workflow.ts:72-80 | Two runs of the successor loop push, without repetition, the ids one run over the concatenated lists pushes. |
| Scheduler.Dispatch | src/workflow.ts:28-42 | The drain loop shifts exactly the ids queued at the start of the tick into the batch, in order. It empties the queue and marks each batch member RUNNING with the tick's start clock. |
| Scheduler.SettleAllEffect | src/workflow.ts:46-87 | Settling a batch changes exactly the batch members, each to the executor's outcome, and adds no other key. |
| Scheduler.SettleOverwritesRunning | src/workflow.ts:37-40 | The RUNNING marks written at dispatch are all overwritten when the batch settles. |
| Scheduler.SettleOne | src/workflow.ts:47-86 | One batch member is written COMPLETED or FAILED. Only a completed member found in the successor map runs the successor loop over its `next` list, and every id it pushes is one of those successors. |
| Scheduler.Settle | src/workflow.ts:46-87 | The settle loop leaves the state with the batch settled. The counts are lowered by the released occurrences, and the ids pushed are exactly those whose count reached 0, each with the completed member that released it. |
| Scheduler.Tick | src/workflow.ts:23-87 | One tick advances the clock by one and settles the whole queue taken at its start. The new queue holds only the ids that the tick's releases brought to 0, so ids pushed during a tick run in a later one. |
| Invariants.InitialInv | src/workflow.ts:17-19 | The loop invariant holds for the initial state, the built maps and the seeded queue. |
| Invariants.PendingReleaseBatch | src/workflow.ts:46-87 | Completing a batch of distinct ids releases exactly the occurrences the batch's completed members find in the successor map. |
| Invariants.TickGraph | src/workflow.ts:46-87 | After a tick, every in-degree other than that of the empty string again equals the number of its pending occurrences; the empty string keeps its built count. |
| Invariants.TickQueue | src/workflow.ts:72-79 | After a tick, the queue holds distinct ids that have not started, and an in-degree is 0 exactly when its id started or is queued. So no id is enqueued twice. |
| Invariants.TickOrder | src/workflow.ts:55-80 | After a tick, every started id started no earlier than the completion of each record listing it. |
| Invariants.TickPreserves | src/workflow.ts:23-88 | Every tick preserves the loop invariant and starts at least one id that had not started, so the loop ends. |
| Engine.FinalContract | src/workflow.ts:23-89 | Once the queue is empty, the invariant yields the whole contract of the result. |
| Engine.ContractDetermines | src/workflow.ts:8-90 | Two results that both satisfy the contract for the same steps are equal: the same steps always give the same final state, whatever order a batch is settled in. |
| Engine.ExecuteWorkflow | src/workflow.ts:8-90 | The result covers the declared ids and settles every id that ran, one tick after its start. An id other than the empty string ran exactly when its listers were consumed; the empty string ran exactly when no record lists it. Each started no earlier than its listers completed, and in the tick in which one of them completed. |
| Properties.Consistent | src/test/utils.ts:4-45 | Every declared id has a state and nothing is left RUNNING. Every COMPLETED or FAILED step has 0 <= startClock < finishedClock. Every record listing a COMPLETED step is COMPLETED no later than that step's start. |
| Properties.RootRuns | src/workflow.ts:137-144 | A declared id that no record lists runs in tick 0. |
| Properties.ReleasedAt | src/workflow.ts:55-80 | An id whose listing records were all kept by the successor map and all completed at the end of tick t runs in tick t. |
| Properties.Blocked | src/workflow.ts:81-86 | An id listed by a record whose id did not complete never runs, and a declared one stays WAITING. |
| Properties.ShadowedBlocks | src/workflow.ts:122 | An id listed by a record that a later record with the same id overrides never runs. |
| Properties.DescendantsWait | src/workflow.ts:81-86 | Every id reachable along successor edges from an id that did not complete never runs. |
| Properties.Closed | src/workflow.ts:106-111 | When every listed id is declared, the result has exactly the declared ids as keys. |
| Properties.EmptyWorkflow | src/workflow.test.ts:128-132 | The empty workflow yields the empty state. |
| Properties.SingleStepRuns | src/workflow.test.ts:22-29 | A single step completes in tick 0. |
| Properties.ChainRunsInOrder | src/workflow.test.ts:7-20 | A chain of three steps runs one step per tick: clocks 0-1, 1-2, 2-3. |
| Properties.FailureStopsChain | src/workflow.test.ts:31-44 | A failed middle step of a chain ends FAILED, and its successor stays WAITING. |
| Properties.BranchesJoin | src/workflow.test.ts:48-63 | Two branches run together in tick 1, and their join runs in tick 2. |
| Properties.DiamondRunsBranchesTogether | src/workflow.test.ts:150-180 | In the diamond the start clocks are 0, 1, 1, 2, 3 and the finished clocks 1, 2, 2, 3, 4. |
| Properties.IndependentChainsInterleave | src/workflow.test.ts:91-108 | Two independent chains advance side by side, one step per tick each. |
| Properties.PartialFailureBlocksJoin | src/workflow.test.ts:110-124 | A join with one failed branch stays WAITING although the other branch completed. |
| Properties.OrphansRunTogether | src/workflow.test.ts:182-199 | Two steps without dependencies both run in tick 0 and finish at 1. |
| Properties.UndeclaredSuccessorRuns | src/workflow.ts:126 | A successor no record declares runs once its lister completed and appears in the result. |
| Properties.EmptySuccessorNeverRuns | src/workflow.ts:73 | The empty-string successor is never decremented, so it never runs and has no state. |
| Properties.DuplicateSuccessorRuns | src/workflow.ts:125-126 | A successor listed twice by one step counts twice and is decremented twice, so it runs in the next tick. |
| Properties.RedeclaredStepDropsSuccessors | src/workflow.ts:122 | A later record with the same id replaces the earlier `next` list, so a successor only the earlier one lists stays WAITING. |
| Suite.LinearWorkflow | src/workflow.test.ts:7-20 | start, middle, end complete at clocks 0-1, 1-2, 2-3. |
| Suite.SingleStepWorkflow | src/workflow.test.ts:22-29 | only completes at clocks 0-1. |
| Suite.FailureWorkflow | src/workflow.test.ts:31-44 | start COMPLETED, fail-step FAILED, after-fail WAITING. |
| Suite.BranchingWorkflow | src/workflow.test.ts:48-63 | start, branch1, branch2 and converge all COMPLETED, with the branches together in tick 1. |
| Suite.DiamondWorkflow | src/workflow.test.ts:65-89 | A to E all COMPLETED, with start clocks 0, 1, 1, 2, 3. |
| Suite.IndependentChainsWorkflow | src/workflow.test.ts:91-108 | All five steps of the two chains COMPLETED. |
| Suite.PartialFailureWorkflow | src/workflow.test.ts:110-124 | start and good-branch COMPLETED, fail-branch FAILED, final WAITING. |
| Suite.EmptyWorkflowRun | src/workflow.test.ts:128-132 | The empty workflow has no keys. |
| Suite.OrphanWorkflow | src/workflow.test.ts:134-145 | orphan1 and orphan2 both COMPLETED at clocks 0-1. |

## Left out

- `async`/`await` and `Promise.allSettled` (src/workflow.ts:44): the batch is settled by a sequential loop. The executor is deterministic and the result is determined by the steps alone (`Engine.ContractDetermines`), so the order inside a batch does not change it.
- The executor's exception: `SimulateStepExecution` returns a boolean rather than throwing, and a rejected promise is modelled as FAILED.
- The `stepId === undefined` guards (src/workflow.ts:35, 48): they cannot trigger, because the queue never holds `undefined`.
- The step state is a Dafny datatype. The JavaScript object's key order and the `__proto__`-style special keys of a plain object are not modelled.
- The jest `expect` calls become postconditions and lemmas. `Consistent` states the helper's checks; the `Suite` methods state each test's expected map.
- Scheduler.Tick: requires a valid in-degree map with non-negative counts, which the source never checks; the loop invariant guarantees it for every call `ExecuteWorkflow` makes (`Invariants.GraphNonNegative`).
- Scheduler.Settle: requires a valid, non-negative in-degree map, for the same reason as `Tick`.
- Scheduler.SettleOne: requires a valid, non-negative in-degree map, for the same reason as `Tick`.
- Scheduler.Release: requires a valid, non-negative in-degree map, for the same reason as `Tick`.
- Scheduler.DecrementOne: requires a valid in-degree map (keys and key order in step), which every map the model builds is.
- Cycles are not detected, as in the source. An id on a cycle never reaches in-degree 0 and stays WAITING; the contract covers this case.
- Successors that no step declares get an in-degree entry (src/workflow.ts:126) and run once released; the model follows the code (`UndeclaredSuccessorRuns`).
