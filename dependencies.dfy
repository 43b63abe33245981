/**
 * What the in-degree map still waits for while the scheduler runs.
 *
 * A record's successors are released once: when its id COMPLETES, the
 * scheduler decrements the successors listed in the successor map, which
 * holds only the LAST record of each id. So a record is "consumed" when its
 * id has completed and it is the last record of that id; every other
 * record's `next` list is still pending. For every id other than the empty
 * string, the in-degree map holds exactly the number of pending occurrences.
 */
module Dependencies {
  import opened Types
  import opened Graph

  /** Record `k` is the last one declaring its id: the one the successor map keeps. */
  ghost predicate IsLast(steps: seq<Step>, k: nat)
    requires k < |steps|
  {
    forall j :: k < j < |steps| ==> steps[j].id != steps[k].id
  }

  /** Record `k`'s successors were released: its id is done and it is the record the successor map keeps. */
  ghost predicate Consumed(steps: seq<Step>, done: set<StepId>, k: nat)
    requires k < |steps|
  {
    steps[k].id in done && IsLast(steps, k)
  }

  /** The indices of the consumed records. */
  ghost function ConsumedSet(steps: seq<Step>, done: set<StepId>): set<nat>
  {
    set k: nat | k < |steps| && Consumed(steps, done, k)
  }

  /** How often `y` occurs in the `next` lists of records `k..` whose index is not in `skip`. */
  ghost function PendingFrom(steps: seq<Step>, skip: set<nat>, y: StepId, k: nat): nat
    requires k <= |steps|
    decreases |steps| - k
  {
    if k == |steps| then 0
    else (if k in skip then 0 else multiset(steps[k].next)[y]) + PendingFrom(steps, skip, y, k + 1)
  }

  /** How many occurrences of `y` are not yet released once the ids in `done` completed. */
  ghost function Pending(steps: seq<Step>, done: set<StepId>, y: StepId): nat
  {
    PendingFrom(steps, ConsumedSet(steps, done), y, 0)
  }

  lemma {:induction false} PendingNoneSkippedFrom(steps: seq<Step>, y: StepId, k: nat)
    requires k <= |steps|
    ensures multiset(AllSuccessors(steps[..k]))[y] + PendingFrom(steps, {}, y, k) == multiset(AllSuccessors(steps))[y]
    decreases |steps| - k
  {
    if k == |steps| {
      assert steps[..k] == steps;
    } else {
      PendingNoneSkippedFrom(steps, y, k + 1);
      PrefixSnoc(steps, k);
    }
  }

  /** Before anything completed, every successor occurrence is pending. */
  lemma PendingNoneDone(steps: seq<Step>, y: StepId)
    ensures Pending(steps, {}, y) == multiset(AllSuccessors(steps))[y]
  {
    assert ConsumedSet(steps, {}) == {};
    PendingNoneSkippedFrom(steps, y, 0);
  }

  /** Skipping one more record `last` removes exactly its `next` list from the records `k..`. */
  lemma {:induction false} PendingSkipFrom(steps: seq<Step>, skip: set<nat>, last: nat, y: StepId, k: nat)
    requires last < |steps| && last !in skip && k <= |steps|
    ensures PendingFrom(steps, skip, y, k)
         == PendingFrom(steps, skip + {last}, y, k) + if k <= last then multiset(steps[last].next)[y] else 0
    decreases |steps| - k
  {
    if k < |steps| {
      PendingSkipFrom(steps, skip, last, y, k + 1);
    }
  }

  /** Completing a declared id `x` consumes exactly the last record of `x`, which was not consumed before. */
  lemma ConsumedSetAdd(steps: seq<Step>, done: set<StepId>, x: StepId)
    requires x in Ids(steps) && x !in done
    ensures LastIndex(steps, x) !in ConsumedSet(steps, done)
    ensures ConsumedSet(steps, done + {x}) == ConsumedSet(steps, done) + {LastIndex(steps, x)}
  {
    var last := LastIndex(steps, x);
    forall k: nat | k < |steps|
      ensures Consumed(steps, done + {x}, k) <==> Consumed(steps, done, k) || k == last
    {
      if k < last {
        assert IsLast(steps, k) ==> steps[last].id != steps[k].id;
      } else if last < k {
        assert steps[k].id != steps[last].id;
      }
    }
  }

  /**
   * Completing a declared id `x` releases exactly the `next` list of its
   * last record, and that list was pending.
   */
  lemma PendingRelease(steps: seq<Step>, done: set<StepId>, x: StepId, y: StepId)
    requires x in Ids(steps) && x !in done
    ensures Pending(steps, done, y) == Pending(steps, done + {x}, y) + multiset(steps[LastIndex(steps, x)].next)[y]
  {
    ConsumedSetAdd(steps, done, x);
    PendingSkipFrom(steps, ConsumedSet(steps, done), LastIndex(steps, x), y, 0);
  }

  /** Completing an id that no record declares releases nothing. */
  lemma PendingUndeclared(steps: seq<Step>, done: set<StepId>, x: StepId)
    requires x !in Ids(steps)
    ensures forall y :: Pending(steps, done + {x}, y) == Pending(steps, done, y)
  {
    forall k: nat | k < |steps| ensures Consumed(steps, done + {x}, k) <==> Consumed(steps, done, k) {
      assert steps[k].id in Ids(steps);
    }
    assert ConsumedSet(steps, done + {x}) == ConsumedSet(steps, done);
  }

  lemma {:induction false} PendingCoversFrom(steps: seq<Step>, skip: set<nat>, i: nat, y: StepId, k: nat)
    requires k <= i < |steps| && y in steps[i].next && i !in skip
    ensures PendingFrom(steps, skip, y, k) > 0
    decreases i - k
  {
    if k < i {
      PendingCoversFrom(steps, skip, i, y, k + 1);
    }
  }

  /** An occurrence of `y` in a record that is not consumed is still pending. */
  lemma PendingCovers(steps: seq<Step>, done: set<StepId>, i: nat, y: StepId)
    requires i < |steps| && y in steps[i].next && !Consumed(steps, done, i)
    ensures Pending(steps, done, y) > 0
  {
    PendingCoversFrom(steps, ConsumedSet(steps, done), i, y, 0);
  }

  lemma {:induction false} PendingClearsFrom(steps: seq<Step>, skip: set<nat>, y: StepId, k: nat)
    requires k <= |steps|
    requires forall i :: k <= i < |steps| && y in steps[i].next ==> i in skip
    ensures PendingFrom(steps, skip, y, k) == 0
    decreases |steps| - k
  {
    if k < |steps| {
      PendingClearsFrom(steps, skip, y, k + 1);
    }
  }

  /** Once every record listing `y` is consumed, nothing for `y` is pending. */
  lemma PendingClears(steps: seq<Step>, done: set<StepId>, y: StepId)
    requires forall i :: 0 <= i < |steps| && y in steps[i].next ==> Consumed(steps, done, i)
    ensures Pending(steps, done, y) == 0
  {
    PendingClearsFrom(steps, ConsumedSet(steps, done), y, 0);
  }

  /** Nothing for `y` is pending exactly when every record listing `y` is consumed. */
  lemma PendingZero(steps: seq<Step>, done: set<StepId>, y: StepId)
    ensures Pending(steps, done, y) == 0 <==>
      forall i :: 0 <= i < |steps| && y in steps[i].next ==> Consumed(steps, done, i)
  {
    if forall i :: 0 <= i < |steps| && y in steps[i].next ==> Consumed(steps, done, i) {
      PendingClears(steps, done, y);
    } else {
      var i :| 0 <= i < |steps| && y in steps[i].next && !Consumed(steps, done, i);
      PendingCovers(steps, done, i, y);
    }
  }

  /** `y` occurs among the successor lists exactly when some record lists it. */
  lemma ListedCount(steps: seq<Step>, y: StepId)
    ensures Listed(steps, y) <==> multiset(AllSuccessors(steps))[y] > 0
  {
    PendingNoneDone(steps, y);
    PendingZero(steps, {}, y);
    if Listed(steps, y) {
      var i :| 0 <= i < |steps| && y in steps[i].next;
      assert !Consumed(steps, {}, i);
    }
  }
}
