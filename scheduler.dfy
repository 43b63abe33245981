/**
 * The tick scheduler of the workflow engine (`executeWorkflow`): each tick
 * drains the ready queue as one batch, marks the batch RUNNING, settles
 * every member through the executor, and releases the successors of the
 * members that completed.
 */
module Scheduler {
  import opened Types
  import opened Graph
  import opened Dependencies

  /** The executor the engine calls: `true` when the step succeeds. */
  function SimulateStepExecution(id: StepId): bool
  {
    !("fail" <= id)
  }

  /** A step fails exactly when its id starts with "fail". */
  lemma FailsIffPrefixed(id: StepId)
    ensures !SimulateStepExecution(id) <==> |id| >= 4 && id[..4] == "fail"
  {
    if |id| >= 4 && id[..4] == "fail" {
      assert "fail" <= id;
    }
  }

  /** The state a step dispatched at `startClock` settles to when the tick ends at `finishedClock`. */
  function Outcome(id: StepId, startClock: int, finishedClock: int): (s: StepState)
    ensures s.IsSettled() && s.startClock == startClock && s.finishedClock == finishedClock
    ensures s.Completed? <==> SimulateStepExecution(id)
  {
    if SimulateStepExecution(id) then Completed(startClock, finishedClock)
    else Failed(startClock, finishedClock)
  }

  /** The ids that have COMPLETED. */
  ghost function Done(state: WorkflowState): set<StepId>
  {
    set x | x in state && state[x].Completed?
  }

  /** The ids that have left WAITING. */
  ghost function StartedIds(state: WorkflowState): set<StepId>
  {
    set x | x in state && state[x].IsStarted()
  }

  function Max0(n: int): int
  {
    if n < 0 then 0 else n
  }

  /** What the successor loop leaves of an in-degree `count` of `y` after the occurrences in `seen`. */
  function Remaining(count: int, y: StepId, seen: seq<StepId>): int
  {
    if y == "" then count else Max0(count - multiset(seen)[y])
  }

  /** `inDegree'` is `inDegree` after the successor loop has seen the occurrences in `seen`. */
  ghost predicate DecrementedBy(inDegree: DependencyMap, seen: seq<StepId>, inDegree': DependencyMap)
  {
    && inDegree'.Valid() && inDegree'.order == inDegree.order && inDegree'.count.Keys == inDegree.count.Keys
    && forall y :: y in inDegree.count ==> inDegree'.count[y] == Remaining(inDegree.count[y], y, seen)
  }

  /** `pushed` holds, once each, the ids whose in-degree went from positive in `inDegree` to 0 in `inDegree'`. */
  ghost predicate PushedBy(inDegree: DependencyMap, inDegree': DependencyMap, pushed: seq<StepId>)
  {
    && Distinct(pushed)
    && forall y :: y in pushed <==>
         y in inDegree.count && y != "" && inDegree.count[y] > 0 && y in inDegree'.count && inDegree'.count[y] == 0
  }

  /** The counts of `inDegree` are never negative. */
  ghost predicate NonNegative(inDegree: DependencyMap)
  {
    forall y :: y in inDegree.count ==> inDegree.count[y] >= 0
  }

  /** The guard of the successor loop body: `nextStepId && dependencyMap.get(nextStepId)`. */
  function Decrements(inDegree: DependencyMap, y: StepId): bool
  {
    y != "" && y in inDegree.count && inDegree.count[y] != 0
  }

  lemma DecrementStep(inDegree: DependencyMap, seen: seq<StepId>, cur: DependencyMap, y: StepId, next: DependencyMap)
    requires NonNegative(inDegree) && DecrementedBy(inDegree, seen, cur)
    requires cur.Valid()
    requires next == if Decrements(cur, y) then cur.Set(y, cur.count[y] - 1) else cur
    ensures DecrementedBy(inDegree, seen + [y], next)
  {
    assert multiset(seen + [y]) == multiset(seen) + multiset{y};
  }

  lemma PushStep(inDegree: DependencyMap, seen: seq<StepId>, cur: DependencyMap, pushed: seq<StepId>,
                 y: StepId, next: DependencyMap, pushed': seq<StepId>)
    requires NonNegative(inDegree) && DecrementedBy(inDegree, seen, cur) && PushedBy(inDegree, cur, pushed)
    requires cur.Valid()
    requires next == if Decrements(cur, y) then cur.Set(y, cur.count[y] - 1) else cur
    requires pushed' == if Decrements(cur, y) && next.count[y] == 0 then pushed + [y] else pushed
    ensures PushedBy(inDegree, next, pushed')
  {
    if Decrements(cur, y) {
      assert cur.count[y] <= inDegree.count[y];
      assert y !in pushed;
    }
  }

  /**
   * The body of the successor loop for one successor `nextStepId`: it is
   * decremented when the guard holds, and pushed when it reaches 0.
   */
  method DecrementOne(nextStepId: StepId, inDegree: DependencyMap, queue: seq<StepId>)
    returns (inDegree': DependencyMap, queue': seq<StepId>, ghost pushed: seq<StepId>)
    requires inDegree.Valid()
    ensures inDegree' == if Decrements(inDegree, nextStepId) then inDegree.Set(nextStepId, inDegree.count[nextStepId] - 1) else inDegree
    ensures pushed == if Decrements(inDegree, nextStepId) && inDegree'.count[nextStepId] == 0 then [nextStepId] else []
    ensures queue' == queue + pushed
  {
    inDegree', queue', pushed := inDegree, queue, [];
    if nextStepId != "" && nextStepId in inDegree.count && inDegree.count[nextStepId] != 0 {
      inDegree' := inDegree.Set(nextStepId, inDegree.count[nextStepId] - 1);
      if inDegree'.count[nextStepId] == 0 {
        queue', pushed := queue + [nextStepId], [nextStepId];
      }
    }
  }

  /** One pass of the successor loop, for the successor `y`, keeps its invariant. */
  lemma ReleaseNext(inDegree: DependencyMap, seen: seq<StepId>, y: StepId, cur: DependencyMap, pushed: seq<StepId>,
                    after: DependencyMap, more: seq<StepId>)
    requires NonNegative(inDegree)
    requires DecrementedBy(inDegree, seen, cur) && PushedBy(inDegree, cur, pushed)
    requires after == if Decrements(cur, y) then cur.Set(y, cur.count[y] - 1) else cur
    requires more == if Decrements(cur, y) && after.count[y] == 0 then [y] else []
    ensures DecrementedBy(inDegree, seen + [y], after) && PushedBy(inDegree, after, pushed + more)
  {
    assert DecrementedBy(inDegree, seen + [y], after) by {
      DecrementStep(inDegree, seen, cur, y, after);
    }
    assert PushedBy(inDegree, after, pushed + more) by {
      PushStep(inDegree, seen, cur, pushed, y, after, pushed + more);
    }
  }

  /**
   * The successor loop of one completed step: every successor other than
   * the empty string whose in-degree is not 0 is decremented, and pushed
   * onto the queue when it reaches 0.
   */
  method Release(next: seq<StepId>, inDegree: DependencyMap, queue: seq<StepId>)
    returns (inDegree': DependencyMap, queue': seq<StepId>, ghost pushed: seq<StepId>)
    requires inDegree.Valid() && NonNegative(inDegree)
    ensures DecrementedBy(inDegree, next, inDegree')
    ensures queue' == queue + pushed && PushedBy(inDegree, inDegree', pushed)
  {
    inDegree', queue', pushed := inDegree, queue, [];
    ghost var seen: seq<StepId> := [];
    for j := 0 to |next|
      invariant seen == next[..j]
      invariant DecrementedBy(inDegree, seen, inDegree')
      invariant queue' == queue + pushed && PushedBy(inDegree, inDegree', pushed)
    {
      var cur := inDegree';
      ghost var more;
      inDegree', queue', more := DecrementOne(next[j], inDegree', queue');
      ReleaseNext(inDegree, seen, next[j], cur, pushed, inDegree', more);
      pushed, seen := pushed + more, seen + [next[j]];
      assert next[..j + 1] == next[..j] + [next[j]];
    }
    assert next[..|next|] == next;
  }

  /** Composing two runs of the successor loop: the in-degrees. */
  lemma DecrementedTwice(inDegree: DependencyMap, seen: seq<StepId>, cur: DependencyMap,
                         next: seq<StepId>, after: DependencyMap)
    requires DecrementedBy(inDegree, seen, cur) && DecrementedBy(cur, next, after)
    ensures DecrementedBy(inDegree, seen + next, after)
  {
    assert multiset(seen + next) == multiset(seen) + multiset(next);
  }

  /** Composing two runs of the successor loop: the ids pushed onto the queue. */
  lemma PushedTwice(inDegree: DependencyMap, seen: seq<StepId>, cur: DependencyMap, pushed: seq<StepId>,
                    next: seq<StepId>, after: DependencyMap, more: seq<StepId>)
    requires NonNegative(inDegree)
    requires DecrementedBy(inDegree, seen, cur) && PushedBy(inDegree, cur, pushed)
    requires DecrementedBy(cur, next, after) && PushedBy(cur, after, more)
    ensures PushedBy(inDegree, after, pushed + more)
  {
    forall i, j | 0 <= i < |pushed| && 0 <= j < |more| ensures pushed[i] != more[j] {
      assert pushed[i] in pushed && more[j] in more;
    }
  }

  /** Every count left by the successor loop is still non-negative. */
  lemma DecrementedNonNegative(inDegree: DependencyMap, seen: seq<StepId>, cur: DependencyMap)
    requires NonNegative(inDegree) && DecrementedBy(inDegree, seen, cur)
    ensures NonNegative(cur)
  {
  }

  /**
   * The drain loop of a tick: the `stepsAvailable` ids queued when the tick
   * began are shifted off, in order, into the batch, and each becomes
   * RUNNING with the tick's start clock.
   */
  method Dispatch(queue: seq<StepId>, state: WorkflowState, startClock: int)
    returns (currentSteps: seq<StepId>, queue': seq<StepId>, state': WorkflowState)
    ensures currentSteps == queue && queue' == []
    ensures state'.Keys == state.Keys + set x | x in queue
    ensures forall x :: x in state' ==> state'[x] == if x in queue then Running(startClock) else state[x]
  {
    currentSteps, queue', state' := [], queue, state;
    var stepsAvailable := |queue'|;
    for i := 0 to stepsAvailable
      invariant currentSteps == queue[..i] && queue' == queue[i..]
      invariant state'.Keys == state.Keys + set x | x in queue[..i]
      invariant forall x :: x in state' ==> state'[x] == if x in queue[..i] then Running(startClock) else state[x]
    {
      var stepId := queue'[0];
      queue' := queue'[1..];
      currentSteps := currentSteps + [stepId];
      state' := state'[stepId := Running(startClock)];
      assert queue[..i + 1] == queue[..i] + [stepId];
    }
    assert queue[..stepsAvailable] == queue;
  }

  /** The successor occurrences the batch releases: the `next` lists the completed members find in the successor map. */
  function Released(stepMap: map<StepId, seq<StepId>>, batch: seq<StepId>): seq<StepId>
  {
    if batch == [] then []
    else
      var x := batch[|batch| - 1];
      Released(stepMap, batch[..|batch| - 1]) + if SimulateStepExecution(x) && x in stepMap then stepMap[x] else []
  }

  /** `state` with every member of `batch`, in order, settled by the executor at the given clocks. */
  function SettleAll(state: WorkflowState, batch: seq<StepId>, startClock: int, clock: int): WorkflowState
  {
    if batch == [] then state
    else
      var x := batch[|batch| - 1];
      SettleAll(state, batch[..|batch| - 1], startClock, clock)[x := Outcome(x, startClock, clock)]
  }

  /** Settling a batch changes exactly its members, each to the executor's outcome. */
  lemma {:induction false} SettleAllEffect(state: WorkflowState, batch: seq<StepId>, startClock: int, clock: int)
    ensures SettleAll(state, batch, startClock, clock).Keys == state.Keys + set x | x in batch
    ensures forall x :: x in batch ==> SettleAll(state, batch, startClock, clock)[x] == Outcome(x, startClock, clock)
    ensures forall x :: x in state && x !in batch ==> SettleAll(state, batch, startClock, clock)[x] == state[x]
  {
    if batch != [] {
      var n := |batch| - 1;
      SettleAllEffect(state, batch[..n], startClock, clock);
      assert batch == batch[..n] + [batch[n]];
    }
  }

  /** The effect of settling a batch on one id `x`. */
  lemma SettleAllAt(state: WorkflowState, batch: seq<StepId>, startClock: int, clock: int, x: StepId)
    ensures x in SettleAll(state, batch, startClock, clock) <==> x in state || x in batch
    ensures x in batch ==> SettleAll(state, batch, startClock, clock)[x] == Outcome(x, startClock, clock)
    ensures x in state && x !in batch ==> SettleAll(state, batch, startClock, clock)[x] == state[x]
  {
    SettleAllEffect(state, batch, startClock, clock);
  }

  /** Every id in `pushed` was released by a completed member of `batch`. */
  ghost predicate PushedFrom(stepMap: map<StepId, seq<StepId>>, batch: seq<StepId>,
                             releasedBy: map<StepId, StepId>, pushed: seq<StepId>)
  {
    forall y :: y in pushed ==> ReleasedFrom(stepMap, batch, releasedBy, y)
  }

  /** One pass of the settle loop body, for the batch member `x`: the specification functions unfold by one. */
  lemma SettleStep(stepMap: map<StepId, seq<StepId>>, state: WorkflowState, batch: seq<StepId>, x: StepId,
                   startClock: int, clock: int, releasedBy: map<StepId, StepId>, pushed: seq<StepId>)
    requires PushedFrom(stepMap, batch, releasedBy, pushed)
    ensures SettleAll(state, batch + [x], startClock, clock) == SettleAll(state, batch, startClock, clock)[x := Outcome(x, startClock, clock)]
    ensures PushedFrom(stepMap, batch + [x], releasedBy, pushed)
    ensures Released(stepMap, batch + [x]) == Released(stepMap, batch) + if SimulateStepExecution(x) && x in stepMap then stepMap[x] else []
  {
    assert (batch + [x])[..|batch|] == batch;
  }

  /** What the release of the completed member `x` adds to the witnesses. */
  lemma ReleaseStep(stepMap: map<StepId, seq<StepId>>, batch: seq<StepId>, x: StepId,
                    releasedBy: map<StepId, StepId>, pushed: seq<StepId>, more: seq<StepId>)
    requires forall y :: y in more ==> SimulateStepExecution(x) && x in stepMap && y in stepMap[x]
    requires PushedFrom(stepMap, batch + [x], releasedBy, pushed)
    ensures PushedFrom(stepMap, batch + [x], releasedBy + map y | y in more :: x, pushed + more)
  {
  }

  /**
   * One pass of the settle loop body: the batch member `stepId` becomes
   * COMPLETED or FAILED, and if it completed and the successor map knows
   * it, its successors are released.
   */
  method SettleOne(stepMap: map<StepId, seq<StepId>>, stepId: StepId, startClock: int, clock: int,
                   inDegree: DependencyMap, queue: seq<StepId>, state: WorkflowState)
    returns (inDegree': DependencyMap, queue': seq<StepId>, state': WorkflowState, ghost more: seq<StepId>)
    requires inDegree.Valid() && NonNegative(inDegree)
    ensures state' == state[stepId := Outcome(stepId, startClock, clock)]
    ensures DecrementedBy(inDegree, if SimulateStepExecution(stepId) && stepId in stepMap then stepMap[stepId] else [], inDegree')
    ensures queue' == queue + more && PushedBy(inDegree, inDegree', more)
    ensures forall y :: y in more ==> SimulateStepExecution(stepId) && stepId in stepMap && y in stepMap[stepId]
  {
    inDegree', queue', more := inDegree, queue, [];
    if SimulateStepExecution(stepId) {
      state' := state[stepId := Completed(startClock, clock)];
      if stepId in stepMap {
        var nextSteps := stepMap[stepId];
        inDegree', queue', more := Release(nextSteps, inDegree, queue);
      }
    } else {
      state' := state[stepId := Failed(startClock, clock)];
    }
  }

  /**
   * The settle loop of a tick: each batch member, in batch order, becomes
   * COMPLETED or FAILED with the tick's clocks, and a completed member that
   * the successor map knows releases its successors.
   */
  method Settle(stepMap: map<StepId, seq<StepId>>, currentSteps: seq<StepId>, startClock: int, clock: int,
                inDegree: DependencyMap, queue: seq<StepId>, state: WorkflowState)
    returns (inDegree': DependencyMap, queue': seq<StepId>, state': WorkflowState,
             ghost pushed: seq<StepId>, ghost releasedBy: map<StepId, StepId>)
    requires inDegree.Valid() && NonNegative(inDegree)
    ensures state' == SettleAll(state, currentSteps, startClock, clock)
    ensures DecrementedBy(inDegree, Released(stepMap, currentSteps), inDegree')
    ensures queue' == queue + pushed && PushedBy(inDegree, inDegree', pushed)
    ensures PushedFrom(stepMap, currentSteps, releasedBy, pushed)
  {
    inDegree', queue', state', pushed, releasedBy := inDegree, queue, state, [], map[];
    assert currentSteps[..0] == [];
    for i := 0 to |currentSteps|
      invariant state' == SettleAll(state, currentSteps[..i], startClock, clock)
      invariant DecrementedBy(inDegree, Released(stepMap, currentSteps[..i]), inDegree')
      invariant queue' == queue + pushed && PushedBy(inDegree, inDegree', pushed)
      invariant PushedFrom(stepMap, currentSteps[..i], releasedBy, pushed)
    {
      var stepId := currentSteps[i];
      ghost var prefix, cur, before := currentSteps[..i], inDegree', pushed;
      assert currentSteps[..i + 1] == prefix + [stepId];
      DecrementedNonNegative(inDegree, Released(stepMap, prefix), cur);
      ghost var more;
      inDegree', queue', state', more := SettleOne(stepMap, stepId, startClock, clock, inDegree', queue', state');
      SettleStep(stepMap, state, prefix, stepId, startClock, clock, releasedBy, before);
      ghost var released := if SimulateStepExecution(stepId) && stepId in stepMap then stepMap[stepId] else [];
      ReleaseStep(stepMap, prefix, stepId, releasedBy, before, more);
      pushed := pushed + more;
      releasedBy := releasedBy + map y | y in more :: stepId;
      DecrementedTwice(inDegree, Released(stepMap, prefix), cur, released, inDegree');
      PushedTwice(inDegree, Released(stepMap, prefix), cur, before, released, inDegree', more);
    }
    assert currentSteps[..|currentSteps|] == currentSteps;
  }

  /** `y` was pushed by the release of `releasedBy[y]`, a completed member of `batch` that lists it. */
  ghost predicate ReleasedFrom(stepMap: map<StepId, seq<StepId>>, batch: seq<StepId>,
                               releasedBy: map<StepId, StepId>, y: StepId)
  {
    && y in releasedBy && releasedBy[y] in batch && SimulateStepExecution(releasedBy[y])
    && releasedBy[y] in stepMap && y in stepMap[releasedBy[y]]
  }

  /** The scheduler's variables between two ticks: in-degree map, ready queue, workflow state and clock. */
  datatype Execution = Execution(inDegree: DependencyMap, queue: seq<StepId>, state: WorkflowState, clock: int)

  /** Marking the batch RUNNING first does not change what settling it leaves. */
  lemma SettleOverwritesRunning(state: WorkflowState, running: WorkflowState, batch: seq<StepId>, startClock: int, clock: int)
    requires running.Keys == state.Keys + set x | x in batch
    requires forall x :: x in running && x !in batch ==> running[x] == state[x]
    ensures SettleAll(running, batch, startClock, clock) == SettleAll(state, batch, startClock, clock)
  {
    SettleAllEffect(running, batch, startClock, clock);
    SettleAllEffect(state, batch, startClock, clock);
  }

  /**
   * One iteration of the clock loop: the tick takes the current clock as its
   * start clock and advances it, drains the queue into the batch, settles
   * the batch, and leaves in the queue exactly the ids its releases pushed.
   */
  method Tick(stepMap: map<StepId, seq<StepId>>, e: Execution) returns (e': Execution, ghost releasedBy: map<StepId, StepId>)
    requires e.inDegree.Valid() && NonNegative(e.inDegree)
    ensures e'.clock == e.clock + 1
    ensures e'.state == SettleAll(e.state, e.queue, e.clock, e.clock + 1)
    ensures DecrementedBy(e.inDegree, Released(stepMap, e.queue), e'.inDegree)
    ensures PushedBy(e.inDegree, e'.inDegree, e'.queue)
    ensures PushedFrom(stepMap, e.queue, releasedBy, e'.queue)
  {
    var clock := e.clock;
    var startClock := clock;
    clock := clock + 1;
    var currentSteps, executionQueue, workflowState := Dispatch(e.queue, e.state, startClock);
    var inDegree;
    ghost var pushed;
    SettleOverwritesRunning(e.state, workflowState, currentSteps, startClock, clock);
    inDegree, executionQueue, workflowState, pushed, releasedBy :=
      Settle(stepMap, currentSteps, startClock, clock, e.inDegree, executionQueue, workflowState);
    e' := Execution(inDegree, executionQueue, workflowState, clock);
  }
}
