/**
 * The invariant of the clock loop of `executeWorkflow` and its proof: it
 * holds for the initial execution, every tick preserves it, and every tick
 * starts at least one new id.
 */
module Invariants {
  import opened Types
  import opened Graph
  import opened Dependencies
  import opened Scheduler

  /** `id` COMPLETED no later than `t`. */
  ghost predicate CompletedBy(state: WorkflowState, id: StepId, t: int)
  {
    id in state && state[id].Completed? && state[id].finishedClock <= t
  }

  /** `id` COMPLETED exactly at `t`. */
  ghost predicate FinishedAt(state: WorkflowState, id: StepId, t: int)
  {
    id in state && state[id].Completed? && state[id].finishedClock == t
  }

  /** The ids a batch completes. */
  ghost function Completing(batch: seq<StepId>): set<StepId>
  {
    set x | x in batch && SimulateStepExecution(x)
  }

  /**
   * The in-degree map covers every id, and for every id other than the
   * empty string it holds the number of its pending occurrences; the empty
   * string keeps its initial count.
   */
  ghost predicate GraphInv(steps: seq<Step>, e: Execution)
  {
    && e.inDegree.Valid() && e.inDegree.count.Keys == AllIds(steps)
    && (forall y :: y in e.inDegree.count && y != "" ==>
          e.inDegree.count[y] == Pending(steps, Done(e.state), y))
    && ("" in e.inDegree.count ==> e.inDegree.count[""] == multiset(AllSuccessors(steps))[""])
  }

  /** Every declared id has a state, and an undeclared id has one only once it started. */
  ghost predicate KeysInv(steps: seq<Step>, e: Execution)
  {
    && Ids(steps) <= e.state.Keys <= AllIds(steps)
    && forall x :: x in e.state && x !in Ids(steps) ==> e.state[x].IsStarted()
  }

  /** Every started id is settled by the executor one tick after it started, before the clock. */
  ghost predicate SettledInv(e: Execution)
  {
    forall x :: Started(e.state, x) ==>
      && e.state[x] == Outcome(x, e.state[x].startClock, e.state[x].startClock + 1)
      && 0 <= e.state[x].startClock < e.clock
  }

  /** Each tick started at least one id. */
  ghost predicate ClockInv(e: Execution)
  {
    0 <= e.clock <= |StartedIds(e.state)|
  }

  ghost predicate StateInv(steps: seq<Step>, e: Execution)
  {
    KeysInv(steps, e) && SettledInv(e) && ClockInv(e)
  }

  /**
   * The queue holds distinct ids that have not started, and an id's
   * in-degree is 0 exactly when it started or waits in the queue.
   */
  ghost predicate QueueInv(e: Execution)
  {
    && Distinct(e.queue)
    && (forall x :: x in e.queue ==> x in e.inDegree.count && !Started(e.state, x))
    && forall x :: x in e.inDegree.count ==> (e.inDegree.count[x] == 0 <==> Started(e.state, x) || x in e.queue)
  }

  /** A started id started no earlier than every record listing it completed. */
  ghost predicate OrderInv(steps: seq<Step>, e: Execution)
  {
    forall i, x :: 0 <= i < |steps| && x in steps[i].next && Started(e.state, x) ==>
      CompletedBy(e.state, steps[i].id, e.state[x].startClock)
  }

  /** `origin[x]` is a record listing `x`, and only ids that started or are queued have one. */
  ghost predicate OriginsInv(steps: seq<Step>, e: Execution, origin: map<StepId, nat>)
  {
    && (forall x :: x in origin ==> origin[x] < |steps| && x in steps[origin[x]].next)
    && (forall x :: x in origin ==> Started(e.state, x) || x in e.queue)
  }

  /**
   * A started id that some record lists started exactly when the id of its
   * origin record completed; an id that no record lists started at tick 0.
   */
  ghost predicate StartTimesInv(steps: seq<Step>, e: Execution, origin: map<StepId, nat>)
  {
    forall x :: Started(e.state, x) ==>
      if Listed(steps, x) then x in origin && origin[x] < |steps| && FinishedAt(e.state, steps[origin[x]].id, e.state[x].startClock)
      else e.state[x].startClock == 0
  }

  /** A queued id was released at the current clock, or the clock is 0. */
  ghost predicate QueueTimesInv(steps: seq<Step>, e: Execution, origin: map<StepId, nat>)
  {
    forall x :: x in e.queue ==>
      if Listed(steps, x) then x in origin && origin[x] < |steps| && FinishedAt(e.state, steps[origin[x]].id, e.clock)
      else e.clock == 0
  }

  ghost predicate TimingInv(steps: seq<Step>, e: Execution, origin: map<StepId, nat>)
  {
    OriginsInv(steps, e, origin) && StartTimesInv(steps, e, origin) && QueueTimesInv(steps, e, origin)
  }

  ghost predicate Inv(steps: seq<Step>, e: Execution, origin: map<StepId, nat>)
  {
    GraphInv(steps, e) && StateInv(steps, e) && QueueInv(e) && OrderInv(steps, e) && TimingInv(steps, e, origin)
  }

  /** What one tick guarantees (the contract of `Tick`). */
  ghost predicate Ticked(stepMap: map<StepId, seq<StepId>>, e: Execution, e': Execution, releasedBy: map<StepId, StepId>)
  {
    && e'.clock == e.clock + 1
    && e'.state == SettleAll(e.state, e.queue, e.clock, e.clock + 1)
    && DecrementedBy(e.inDegree, Released(stepMap, e.queue), e'.inDegree)
    && PushedBy(e.inDegree, e'.inDegree, e'.queue)
    && PushedFrom(stepMap, e.queue, releasedBy, e'.queue)
  }

  /** The origins after a tick: each pushed id is witnessed by the last record of the id that released it. */
  ghost function NextWitness(steps: seq<Step>, origin: map<StepId, nat>, releasedBy: map<StepId, StepId>,
                             pushed: seq<StepId>): map<StepId, nat>
  {
    origin + map y | y in pushed && y in releasedBy && releasedBy[y] in Ids(steps) :: LastIndex(steps, releasedBy[y])
  }

  /** The state before the first tick. */
  lemma InitialInv(steps: seq<Step>, dependencyMap: DependencyMap, queue: seq<StepId>)
    requires dependencyMap.Valid() && dependencyMap.count.Keys == AllIds(steps)
    requires forall y :: y in dependencyMap.count ==> dependencyMap.count[y] == multiset(AllSuccessors(steps))[y]
    requires Distinct(queue) && forall x :: x in queue <==> x in dependencyMap.count && dependencyMap.count[x] == 0
    ensures Inv(steps, Execution(dependencyMap, queue, InitWorkflowState(steps), 0), map[])
  {
    var e := Execution(dependencyMap, queue, InitWorkflowState(steps), 0);
    assert Done(e.state) == {};
    forall y { PendingNoneDone(steps, y); }
    forall x | x in queue ensures !Listed(steps, x) {
      ListedCount(steps, x);
    }
  }

  /** Settling a batch of ids that had not started. */
  lemma SettleEffect(state: WorkflowState, batch: seq<StepId>, clock: int)
    requires forall x :: x in batch ==> !Started(state, x)
    ensures Done(SettleAll(state, batch, clock, clock + 1)) == Done(state) + Completing(batch)
    ensures StartedIds(SettleAll(state, batch, clock, clock + 1)) == StartedIds(state) + set x | x in batch
  {
    SettleAllEffect(state, batch, clock, clock + 1);
  }

  /** Completing one id `x` that was not done releases what `Released` says for it. */
  lemma PendingReleaseOne(steps: seq<Step>, stepMap: map<StepId, seq<StepId>>, done: set<StepId>, x: StepId, y: StepId)
    requires IsSuccessorMap(stepMap, steps) && x !in done
    ensures Pending(steps, done, y) == Pending(steps, done + Completing([x]), y) + multiset(Released(stepMap, [x]))[y]
  {
    assert Released(stepMap, [x]) == if SimulateStepExecution(x) && x in stepMap then stepMap[x] else [];
    if SimulateStepExecution(x) {
      assert Completing([x]) == {x};
      if x in Ids(steps) {
        PendingRelease(steps, done, x, y);
      } else {
        PendingUndeclared(steps, done, x);
      }
    } else {
      assert Completing([x]) == {};
      assert done + {} == done;
    }
  }

  /** `Completing` and `Released` of a batch with one more member. */
  lemma BatchSnoc(stepMap: map<StepId, seq<StepId>>, p: seq<StepId>, x: StepId)
    ensures Completing(p + [x]) == Completing(p) + Completing([x])
    ensures Released(stepMap, p + [x]) == Released(stepMap, p) + Released(stepMap, [x])
  {
    assert (p + [x])[..|p|] == p;
  }

  /** Completing a batch of distinct ids releases exactly the batch's released occurrences. */
  lemma {:induction false} PendingReleaseBatch(steps: seq<Step>, stepMap: map<StepId, seq<StepId>>,
                                               done: set<StepId>, batch: seq<StepId>, y: StepId)
    requires IsSuccessorMap(stepMap, steps)
    requires Distinct(batch) && forall x :: x in batch ==> x !in done
    ensures Pending(steps, done, y) == Pending(steps, done + Completing(batch), y) + multiset(Released(stepMap, batch))[y]
  {
    if batch == [] {
      assert Completing(batch) == {};
      assert done + {} == done;
    } else {
      var n := |batch| - 1;
      var p, x := batch[..n], batch[n];
      assert batch == p + [x];
      assert Distinct(p) && x !in p;
      PendingReleaseBatch(steps, stepMap, done, p, y);
      BatchSnoc(stepMap, p, x);
      var d := done + Completing(p);
      assert x !in d;
      PendingReleaseOne(steps, stepMap, d, x, y);
      assert done + Completing(batch) == d + Completing([x]);
    }
  }

  /** After a tick, the in-degrees again count the pending occurrences. */
  lemma TickGraph(steps: seq<Step>, stepMap: map<StepId, seq<StepId>>, e: Execution, e': Execution,
                  releasedBy: map<StepId, StepId>)
    requires IsSuccessorMap(stepMap, steps) && GraphInv(steps, e) && QueueInv(e) && Ticked(stepMap, e, e', releasedBy)
    ensures GraphInv(steps, e')
  {
    var done, released := Done(e.state), Released(stepMap, e.queue);
    SettleEffect(e.state, e.queue, e.clock);
    forall x | x in e.queue ensures x !in done {
    }
    forall y | y in e'.inDegree.count && y != "" ensures e'.inDegree.count[y] == Pending(steps, Done(e'.state), y) {
      PendingReleaseBatch(steps, stepMap, done, e.queue, y);
      assert e'.inDegree.count[y] == Max0(e.inDegree.count[y] - multiset(released)[y]);
    }
  }

  /** Which ids have started after settling a batch, and which states are untouched. */
  lemma SettleStarted(state: WorkflowState, batch: seq<StepId>, clock: int)
    ensures forall x :: Started(SettleAll(state, batch, clock, clock + 1), x) <==> Started(state, x) || x in batch
  {
    SettleAllEffect(state, batch, clock, clock + 1);
  }

  /** After a tick, the batch members have states and undeclared ids still have one only once started. */
  lemma TickKeys(steps: seq<Step>, e: Execution, e': Execution, stepMap: map<StepId, seq<StepId>>,
                 releasedBy: map<StepId, StepId>)
    requires KeysInv(steps, e) && QueueInv(e) && e.inDegree.count.Keys == AllIds(steps)
    requires Ticked(stepMap, e, e', releasedBy)
    ensures KeysInv(steps, e')
  {
    var s, s' := e.state, e'.state;
    SettleAllEffect(s, e.queue, e.clock, e.clock + 1);
    forall x | x in s' && x !in Ids(steps) ensures s'[x].IsStarted() {
      if x !in e.queue {
        assert s'[x] == s[x];
      }
    }
  }

  /** After a tick, the batch is settled with the tick's clocks. */
  lemma TickSettled(e: Execution, e': Execution, stepMap: map<StepId, seq<StepId>>, releasedBy: map<StepId, StepId>)
    requires SettledInv(e) && 0 <= e.clock && Ticked(stepMap, e, e', releasedBy)
    ensures SettledInv(e')
  {
    var s, s' := e.state, e'.state;
    SettleAllEffect(s, e.queue, e.clock, e.clock + 1);
    forall x | Started(s', x)
      ensures s'[x] == Outcome(x, s'[x].startClock, s'[x].startClock + 1) && 0 <= s'[x].startClock < e'.clock
    {
      if x in e.queue {
        assert s'[x] == Outcome(x, e.clock, e.clock + 1);
      } else {
        assert s'[x] == s[x] && Started(s, x);
      }
    }
  }

  /** A tick starts at least one id, so the clock stays within the number of started ids. */
  lemma TickClock(e: Execution, e': Execution, stepMap: map<StepId, seq<StepId>>, releasedBy: map<StepId, StepId>)
    requires ClockInv(e) && QueueInv(e)
    requires Ticked(stepMap, e, e', releasedBy) && e.queue != []
    ensures ClockInv(e')
  {
    SettleEffect(e.state, e.queue, e.clock);
    var before, batch := StartedIds(e.state), set x | x in e.queue;
    assert e.queue[0] in batch;
    assert before * batch == {};
    assert |before + batch| == |before| + |batch|;
  }

  /** After a tick, the queue is exactly the ids whose in-degree the tick brought to 0. */
  lemma TickQueue(e: Execution, e': Execution, stepMap: map<StepId, seq<StepId>>, releasedBy: map<StepId, StepId>)
    requires QueueInv(e) && NonNegative(e.inDegree) && Ticked(stepMap, e, e', releasedBy)
    ensures QueueInv(e')
  {
    SettleStarted(e.state, e.queue, e.clock);
    var count, count' := e.inDegree.count, e'.inDegree.count;
    forall x | x in e'.queue ensures x in count' && !Started(e'.state, x) {
      assert count[x] != 0;
    }
    forall x | x in count' ensures count'[x] == 0 <==> Started(e'.state, x) || x in e'.queue {
      assert x in count;
      assert count'[x] == Remaining(count[x], x, Released(stepMap, e.queue));
    }
  }

  /** After a tick, a started id `x` listed by record `i` started after that record's id completed. */
  lemma OrderOne(steps: seq<Step>, e: Execution, e': Execution, i: nat, x: StepId)
    requires GraphInv(steps, e) && SettledInv(e) && QueueInv(e) && OrderInv(steps, e)
    requires e'.state == SettleAll(e.state, e.queue, e.clock, e.clock + 1)
    requires i < |steps| && x in steps[i].next && Started(e'.state, x)
    ensures CompletedBy(e'.state, steps[i].id, e'.state[x].startClock)
  {
    var s, id := e.state, steps[i].id;
    SettleAllAt(s, e.queue, e.clock, e.clock + 1, x);
    SettleAllAt(s, e.queue, e.clock, e.clock + 1, id);
    if x in e.queue {
      assert x in e.inDegree.count && e.inDegree.count[x] == 0;
      if x == "" {
        ListedCount(steps, x);
      } else {
        PendingZero(steps, Done(s), x);
        assert Consumed(steps, Done(s), i);
      }
      assert Started(s, id);
    } else {
      assert CompletedBy(s, id, s[x].startClock);
      assert Started(s, id);
    }
  }

  /** After a tick, every started id still started after the records listing it completed. */
  lemma TickOrder(steps: seq<Step>, e: Execution, e': Execution, stepMap: map<StepId, seq<StepId>>,
                  origin: map<StepId, nat>, releasedBy: map<StepId, StepId>)
    requires Inv(steps, e, origin) && Ticked(stepMap, e, e', releasedBy)
    ensures OrderInv(steps, e')
  {
    forall i, x | 0 <= i < |steps| && x in steps[i].next && Started(e'.state, x)
      ensures CompletedBy(e'.state, steps[i].id, e'.state[x].startClock)
    {
      OrderOne(steps, e, e', i, x);
    }
  }

  /** The origin a tick gives the pushed id `y`. */
  lemma PushedOrigin(steps: seq<Step>, e: Execution, e': Execution, stepMap: map<StepId, seq<StepId>>,
                     origin: map<StepId, nat>, releasedBy: map<StepId, StepId>, y: StepId)
    requires IsSuccessorMap(stepMap, steps) && Ticked(stepMap, e, e', releasedBy) && y in e'.queue
    ensures var origin' := NextWitness(steps, origin, releasedBy, e'.queue);
      && y in origin' && origin'[y] < |steps| && y in steps[origin'[y]].next
      && Listed(steps, y) && FinishedAt(e'.state, steps[origin'[y]].id, e'.clock)
  {
    assert ReleasedFrom(stepMap, e.queue, releasedBy, y);
    var r := releasedBy[y];
    assert r in Ids(steps);
    var k := LastIndex(steps, r);
    var origin' := NextWitness(steps, origin, releasedBy, e'.queue);
    assert origin'[y] == k;
    assert y in steps[k].next;
    SettleAllEffect(e.state, e.queue, e.clock, e.clock + 1);
    assert e'.state[r] == Outcome(r, e.clock, e.clock + 1);
  }

  /** After a tick, the origin of each pushed id is the last record of the id that released it. */
  lemma TickPushedOrigin(steps: seq<Step>, e: Execution, e': Execution, stepMap: map<StepId, seq<StepId>>,
                         origin: map<StepId, nat>, releasedBy: map<StepId, StepId>)
    requires IsSuccessorMap(stepMap, steps) && Ticked(stepMap, e, e', releasedBy)
    ensures var origin' := NextWitness(steps, origin, releasedBy, e'.queue);
      forall y :: y in e'.queue ==>
        && y in origin' && origin'[y] < |steps| && y in steps[origin'[y]].next
        && Listed(steps, y) && FinishedAt(e'.state, steps[origin'[y]].id, e'.clock)
  {
    forall y | y in e'.queue
      ensures var origin' := NextWitness(steps, origin, releasedBy, e'.queue);
        && y in origin' && origin'[y] < |steps| && y in steps[origin'[y]].next
        && Listed(steps, y) && FinishedAt(e'.state, steps[origin'[y]].id, e'.clock)
    {
      PushedOrigin(steps, e, e', stepMap, origin, releasedBy, y);
    }
  }

  /** After a tick, the origins still name records listing their ids, and only for started or queued ids. */
  lemma TickOrigins(steps: seq<Step>, e: Execution, e': Execution, stepMap: map<StepId, seq<StepId>>,
                    origin: map<StepId, nat>, releasedBy: map<StepId, StepId>)
    requires IsSuccessorMap(stepMap, steps) && OriginsInv(steps, e, origin)
    requires Ticked(stepMap, e, e', releasedBy)
    ensures OriginsInv(steps, e', NextWitness(steps, origin, releasedBy, e'.queue))
  {
    TickPushedOrigin(steps, e, e', stepMap, origin, releasedBy);
    SettleStarted(e.state, e.queue, e.clock);
  }

  /** The next origins keep the origin of every id that was not pushed. */
  lemma NextWitnessKeeps(steps: seq<Step>, origin: map<StepId, nat>, releasedBy: map<StepId, StepId>,
                         pushed: seq<StepId>, x: StepId)
    requires x !in pushed
    ensures var origin' := NextWitness(steps, origin, releasedBy, pushed);
      (x in origin' <==> x in origin) && (x in origin ==> origin'[x] == origin[x])
  {
  }

  /** The start clock of one id started after a tick is witnessed by its origin. */
  lemma StartTimeOne(steps: seq<Step>, e: Execution, e': Execution, stepMap: map<StepId, seq<StepId>>,
                     origin: map<StepId, nat>, releasedBy: map<StepId, StepId>, x: StepId)
    requires QueueInv(e) && OriginsInv(steps, e, origin) && StartTimesInv(steps, e, origin)
    requires QueueTimesInv(steps, e, origin) && e'.state == SettleAll(e.state, e.queue, e.clock, e.clock + 1)
    requires Started(e'.state, x) && x !in e'.queue
    ensures var origin' := NextWitness(steps, origin, releasedBy, e'.queue);
      if Listed(steps, x) then x in origin' && origin'[x] < |steps| && FinishedAt(e'.state, steps[origin'[x]].id, e'.state[x].startClock)
      else e'.state[x].startClock == 0
  {
    var s, s' := e.state, e'.state;
    SettleAllAt(s, e.queue, e.clock, e.clock + 1, x);
    NextWitnessKeeps(steps, origin, releasedBy, e'.queue, x);
    var start := if x in e.queue then e.clock else s[x].startClock;
    assert s'[x].startClock == start;
    if Listed(steps, x) {
      var id := steps[origin[x]].id;
      assert FinishedAt(s, id, start);
      assert id !in e.queue by {
        assert Started(s, id);
      }
      SettleAllAt(s, e.queue, e.clock, e.clock + 1, id);
    }
  }

  /** After a tick, the origins still witness the start clocks. */
  lemma TickStartTimes(steps: seq<Step>, e: Execution, e': Execution, stepMap: map<StepId, seq<StepId>>,
                       origin: map<StepId, nat>, releasedBy: map<StepId, StepId>)
    requires QueueInv(e) && QueueInv(e') && OriginsInv(steps, e, origin) && StartTimesInv(steps, e, origin)
    requires QueueTimesInv(steps, e, origin) && Ticked(stepMap, e, e', releasedBy)
    ensures StartTimesInv(steps, e', NextWitness(steps, origin, releasedBy, e'.queue))
  {
    forall x | Started(e'.state, x)
      ensures var origin' := NextWitness(steps, origin, releasedBy, e'.queue);
        if Listed(steps, x) then x in origin' && origin'[x] < |steps| && FinishedAt(e'.state, steps[origin'[x]].id, e'.state[x].startClock)
        else e'.state[x].startClock == 0
    {
      StartTimeOne(steps, e, e', stepMap, origin, releasedBy, x);
    }
  }

  /** After a tick, the origins still witness the start clocks and the release clocks. */
  lemma TickTiming(steps: seq<Step>, e: Execution, e': Execution, stepMap: map<StepId, seq<StepId>>,
                   origin: map<StepId, nat>, releasedBy: map<StepId, StepId>)
    requires IsSuccessorMap(stepMap, steps) && QueueInv(e) && QueueInv(e') && TimingInv(steps, e, origin)
    requires Ticked(stepMap, e, e', releasedBy)
    ensures TimingInv(steps, e', NextWitness(steps, origin, releasedBy, e'.queue))
  {
    TickOrigins(steps, e, e', stepMap, origin, releasedBy);
    TickStartTimes(steps, e, e', stepMap, origin, releasedBy);
    TickPushedOrigin(steps, e, e', stepMap, origin, releasedBy);
  }

  /** The in-degrees the invariant describes are never negative. */
  lemma GraphNonNegative(steps: seq<Step>, e: Execution)
    requires GraphInv(steps, e)
    ensures NonNegative(e.inDegree)
  {
  }

  /** A tick starts at least one id that had not started. */
  lemma TickProgress(steps: seq<Step>, e: Execution, e': Execution, stepMap: map<StepId, seq<StepId>>,
                     releasedBy: map<StepId, StepId>)
    requires QueueInv(e) && e.inDegree.count.Keys == AllIds(steps)
    requires Ticked(stepMap, e, e', releasedBy) && e.queue != []
    ensures AllIds(steps) - StartedIds(e'.state) < AllIds(steps) - StartedIds(e.state)
  {
    SettleEffect(e.state, e.queue, e.clock);
    assert e.queue[0] in AllIds(steps) - StartedIds(e.state);
  }

  /** Every tick preserves the invariant and starts at least one new id. */
  lemma TickPreserves(steps: seq<Step>, stepMap: map<StepId, seq<StepId>>, e: Execution, e': Execution,
                      origin: map<StepId, nat>, releasedBy: map<StepId, StepId>)
    requires IsSuccessorMap(stepMap, steps) && Inv(steps, e, origin) && Ticked(stepMap, e, e', releasedBy)
    requires e.queue != []
    ensures Inv(steps, e', NextWitness(steps, origin, releasedBy, e'.queue))
    ensures AllIds(steps) - StartedIds(e'.state) < AllIds(steps) - StartedIds(e.state)
  {
    GraphNonNegative(steps, e);
    TickGraph(steps, stepMap, e, e', releasedBy);
    TickKeys(steps, e, e', stepMap, releasedBy);
    TickSettled(e, e', stepMap, releasedBy);
    TickClock(e, e', stepMap, releasedBy);
    TickQueue(e, e', stepMap, releasedBy);
    TickOrder(steps, e, e', stepMap, origin, releasedBy);
    TickTiming(steps, e, e', stepMap, origin, releasedBy);
    TickProgress(steps, e, e', stepMap, releasedBy);
  }
}
