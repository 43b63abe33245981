/**
 * `executeWorkflow`: builds the initial state, the successor and in-degree
 * maps and the initial queue, then runs ticks until the queue is empty, and
 * returns the workflow state. Its contract says which steps run, when, and
 * how they end, in terms of the step definitions alone.
 */
module Engine {
  import opened Types
  import opened Graph
  import opened Dependencies
  import opened Scheduler
  import opened Invariants

  /** Every declared id has a state; an id only named as a successor has one only if it ran. */
  ghost predicate CoversSteps(steps: seq<Step>, r: WorkflowState)
  {
    && Ids(steps) <= r.Keys <= AllIds(steps)
    && forall x :: x in r && x !in Ids(steps) ==> r[x].IsStarted()
  }

  /**
   * Nothing is left RUNNING: a step that ran ended COMPLETED or FAILED as the
   * executor decided, one tick after it started, and every start clock is
   * below the number of ids.
   */
  ghost predicate SettledByExecutor(steps: seq<Step>, r: WorkflowState)
  {
    forall x :: x in r && r[x].IsStarted() ==>
      && r[x] == Outcome(x, r[x].startClock, r[x].startClock + 1)
      && 0 <= r[x].startClock < |AllIds(steps)|
  }

  /** Every record listing `x` was consumed: its id completed and it is the record the successor map kept. */
  ghost predicate DependenciesReleased(steps: seq<Step>, r: WorkflowState, x: StepId)
  {
    forall i :: 0 <= i < |steps| && x in steps[i].next ==> Consumed(steps, Done(r), i)
  }

  /**
   * An id ran exactly when every record listing it was consumed, except that
   * the empty string, which the successor loop never decrements, ran only if
   * no record lists it.
   */
  ghost predicate RunsExactlyWhenReleased(steps: seq<Step>, r: WorkflowState)
  {
    forall x :: x in AllIds(steps) ==>
      (Started(r, x) <==> DependenciesReleased(steps, r, x) && (x == "" ==> !Listed(steps, x)))
  }

  /** Every id that ran started no earlier than every record listing it completed. */
  ghost predicate RespectsDependencies(steps: seq<Step>, r: WorkflowState)
  {
    forall i, x :: 0 <= i < |steps| && x in steps[i].next && Started(r, x) ==>
      CompletedBy(r, steps[i].id, r[x].startClock)
  }

  /**
   * Every id that ran started in the tick its last dependency completed, or
   * in tick 0 if no record lists it.
   */
  ghost predicate StartsWhenReleased(steps: seq<Step>, r: WorkflowState)
  {
    forall x :: Started(r, x) ==>
      if Listed(steps, x) then exists i :: 0 <= i < |steps| && x in steps[i].next && FinishedAt(r, steps[i].id, r[x].startClock)
      else r[x].startClock == 0
  }

  /** Everything `ExecuteWorkflow` promises about its result. */
  ghost predicate WorkflowContract(steps: seq<Step>, r: WorkflowState)
  {
    && CoversSteps(steps, r) && SettledByExecutor(steps, r) && RunsExactlyWhenReleased(steps, r)
    && RespectsDependencies(steps, r) && StartsWhenReleased(steps, r)
  }

  lemma SubsetCard(a: set<StepId>, b: set<StepId>)
    requires a <= b
    ensures |a| <= |b|
  {
    assert b == a + (b - a);
    assert a * (b - a) == {};
  }

  /** Which ids ran, once the queue is empty. */
  lemma FinalRuns(steps: seq<Step>, e: Execution, origin: map<StepId, nat>)
    requires Inv(steps, e, origin) && e.queue == []
    ensures RunsExactlyWhenReleased(steps, e.state)
  {
    forall x | x in AllIds(steps)
      ensures Started(e.state, x) <==> DependenciesReleased(steps, e.state, x) && (x == "" ==> !Listed(steps, x))
    {
      assert x in e.inDegree.count;
      if x == "" {
        ListedCount(steps, x);
        PendingZero(steps, Done(e.state), x);
      } else {
        PendingZero(steps, Done(e.state), x);
      }
    }
  }

  /** How the ids that ran ended, and the bound on their start clocks. */
  lemma FinalSettled(steps: seq<Step>, e: Execution)
    requires KeysInv(steps, e) && SettledInv(e) && ClockInv(e)
    ensures SettledByExecutor(steps, e.state)
  {
    SubsetCard(StartedIds(e.state), AllIds(steps));
    forall x | x in e.state && e.state[x].IsStarted() ensures 0 <= e.state[x].startClock < |AllIds(steps)| {
      assert Started(e.state, x);
    }
  }

  /** When the ids ran: their origins are the records the contract asks for. */
  lemma FinalStarts(steps: seq<Step>, e: Execution, origin: map<StepId, nat>)
    requires OriginsInv(steps, e, origin) && StartTimesInv(steps, e, origin)
    ensures StartsWhenReleased(steps, e.state)
  {
    forall x | Started(e.state, x) && Listed(steps, x)
      ensures exists i :: 0 <= i < |steps| && x in steps[i].next && FinishedAt(e.state, steps[i].id, e.state[x].startClock)
    {
      var i := origin[x];
      assert x in steps[i].next && FinishedAt(e.state, steps[i].id, e.state[x].startClock);
    }
  }

  /** The loop invariant with an empty queue is the contract. */
  lemma FinalContract(steps: seq<Step>, e: Execution, origin: map<StepId, nat>)
    requires Inv(steps, e, origin) && e.queue == []
    ensures WorkflowContract(steps, e.state)
  {
    FinalRuns(steps, e, origin);
    FinalSettled(steps, e);
    FinalStarts(steps, e, origin);
  }

  /** `r1` and `r2` agree on every id that started before tick `t` in `r1`. */
  ghost predicate AgreeBefore(r1: WorkflowState, r2: WorkflowState, t: int)
  {
    forall y :: Started(r1, y) && r1[y].startClock < t ==> Started(r2, y) && r2[y] == r1[y]
  }

  /** A record listing `x` has an id that completed before `x` started, so the two results agree on it. */
  lemma ListerAgrees(steps: seq<Step>, r1: WorkflowState, r2: WorkflowState, x: StepId, i: nat)
    requires SettledByExecutor(steps, r1) && RespectsDependencies(steps, r1)
    requires Started(r1, x) && AgreeBefore(r1, r2, r1[x].startClock)
    requires i < |steps| && x in steps[i].next
    ensures CompletedBy(r1, steps[i].id, r1[x].startClock)
    ensures steps[i].id in r2 && r2[steps[i].id] == r1[steps[i].id]
  {
    var p := steps[i].id;
    assert CompletedBy(r1, p, r1[x].startClock);
    assert r1[p] == Outcome(p, r1[p].startClock, r1[p].startClock + 1);
  }

  /** An id that started in `r1` after everything the results agree on also started in `r2`. */
  lemma StartedInBoth(steps: seq<Step>, r1: WorkflowState, r2: WorkflowState, x: StepId)
    requires WorkflowContract(steps, r1) && WorkflowContract(steps, r2)
    requires Started(r1, x) && AgreeBefore(r1, r2, r1[x].startClock)
    ensures Started(r2, x)
    ensures forall i :: 0 <= i < |steps| && x in steps[i].next ==> steps[i].id in r2 && r2[steps[i].id] == r1[steps[i].id]
  {
    forall i | 0 <= i < |steps| && x in steps[i].next
      ensures Consumed(steps, Done(r2), i) && steps[i].id in r2 && r2[steps[i].id] == r1[steps[i].id]
    {
      ListerAgrees(steps, r1, r2, x, i);
    }
    assert x in AllIds(steps);
    assert DependenciesReleased(steps, r2, x);
  }

  /**
   * If two results of the contract agree on everything that started before
   * `x` in `r1`, they agree on `x`: its listers finished at the same clocks
   * in both, so `x` starts at the same clock, the last of those finishes.
   */
  lemma AgreeOn(steps: seq<Step>, r1: WorkflowState, r2: WorkflowState, x: StepId)
    requires WorkflowContract(steps, r1) && WorkflowContract(steps, r2)
    requires Started(r1, x) && AgreeBefore(r1, r2, r1[x].startClock)
    ensures Started(r2, x) && r2[x] == r1[x]
  {
    StartedInBoth(steps, r1, r2, x);
    var t, u := r1[x].startClock, r2[x].startClock;
    if Listed(steps, x) {
      // The lister that released `x` in `r2` finished in `r1` at `u`, so `u <= t`.
      var i :| 0 <= i < |steps| && x in steps[i].next && FinishedAt(r2, steps[i].id, u);
      ListerAgrees(steps, r1, r2, x, i);
      // The lister that released `x` in `r1` finished in `r2` at `t`, so `t <= u`.
      var k :| 0 <= k < |steps| && x in steps[k].next && FinishedAt(r1, steps[k].id, t);
      assert CompletedBy(r2, steps[k].id, u);
    }
    assert t == u;
  }

  /** Two results of the contract agree on every id that starts before tick `t`. */
  lemma {:induction false} AgreeUpTo(steps: seq<Step>, r1: WorkflowState, r2: WorkflowState, t: nat)
    requires WorkflowContract(steps, r1) && WorkflowContract(steps, r2)
    ensures AgreeBefore(r1, r2, t)
  {
    if t > 0 {
      AgreeUpTo(steps, r1, r2, t - 1);
      forall y | Started(r1, y) && r1[y].startClock < t ensures Started(r2, y) && r2[y] == r1[y] {
        if r1[y].startClock == t - 1 {
          AgreeOn(steps, r1, r2, y);
        }
      }
    }
  }

  /**
   * The contract determines the result: the same steps always give the same
   * final state, whatever order a batch is settled in.
   */
  lemma ContractDetermines(steps: seq<Step>, r1: WorkflowState, r2: WorkflowState)
    requires WorkflowContract(steps, r1) && WorkflowContract(steps, r2)
    ensures r1 == r2
  {
    forall x | Started(r1, x) ensures Started(r2, x) && r2[x] == r1[x] {
      AgreeUpTo(steps, r1, r2, r1[x].startClock + 1);
    }
    forall x | Started(r2, x) ensures Started(r1, x) && r1[x] == r2[x] {
      AgreeUpTo(steps, r2, r1, r2[x].startClock + 1);
    }
    forall x | x in r1 ensures x in r2 && r2[x] == r1[x] {
      if !Started(r1, x) {
        assert x in Ids(steps);
      }
    }
    forall x | x in r2 ensures x in r1 {
      if !Started(r2, x) {
        assert x in Ids(steps);
      }
    }
  }

  /**
   * Runs the workflow: every declared step starts WAITING; each tick runs
   * the whole ready queue; a completed step releases its successors; the
   * loop stops when the queue is empty.
   */
  method ExecuteWorkflow(steps: seq<Step>) returns (workflowState: WorkflowState)
    ensures CoversSteps(steps, workflowState)
    ensures SettledByExecutor(steps, workflowState)
    ensures RunsExactlyWhenReleased(steps, workflowState)
    ensures RespectsDependencies(steps, workflowState)
    ensures StartsWhenReleased(steps, workflowState)
  {
    workflowState := InitWorkflowState(steps);
    var stepMap, dependencyMap := InitMappings(steps);
    var executionQueue := InitExecutionQueue(dependencyMap);
    var clock := 0;
    InitialInv(steps, dependencyMap, executionQueue);
    var e := Execution(dependencyMap, executionQueue, workflowState, clock);
    ghost var origin: map<StepId, nat> := map[];
    while e.queue != []
      invariant IsSuccessorMap(stepMap, steps) && Inv(steps, e, origin)
      decreases AllIds(steps) - StartedIds(e.state)
    {
      GraphNonNegative(steps, e);
      var e', releasedBy := Tick(stepMap, e);
      TickPreserves(steps, stepMap, e, e', origin, releasedBy);
      e, origin := e', NextWitness(steps, origin, releasedBy, e'.queue);
    }
    FinalContract(steps, e, origin);
    workflowState := e.state;
  }
}
