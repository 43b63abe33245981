/**
 * Consequences of the contract of `executeWorkflow`: the consistency check
 * the test helper applies to every result, which steps a non-completed step
 * keeps WAITING, and the exact results of the workflows of the test suite.
 * Every lemma takes a result `r` that satisfies `WorkflowContract`, which is
 * what `ExecuteWorkflow` promises about the state it returns.
 */
module Properties {
  import opened Types
  import opened Graph
  import opened Dependencies
  import opened Scheduler
  import opened Invariants
  import opened Engine

  /**
   * The consistency check of the test helper: every declared id has a
   * state, a COMPLETED or FAILED step has 0 <= startClock < finishedClock,
   * nothing is left RUNNING, and a COMPLETED step has every record listing
   * it COMPLETED no later than its own start.
   */
  lemma Consistent(steps: seq<Step>, r: WorkflowState)
    requires WorkflowContract(steps, r)
    ensures forall i :: 0 <= i < |steps| ==> steps[i].id in r
    ensures forall x :: x in r ==> !r[x].Running?
    ensures forall x :: x in r && r[x].IsSettled() ==> 0 <= r[x].startClock < r[x].finishedClock
    ensures forall x, i :: x in r && r[x].Completed? && 0 <= i < |steps| && x in steps[i].next ==>
      CompletedBy(r, steps[i].id, r[x].startClock)
  {
    forall i | 0 <= i < |steps| ensures steps[i].id in r {
      assert steps[i].id in Ids(steps);
    }
    forall x | x in r && r[x].IsStarted()
      ensures !r[x].Running? && 0 <= r[x].startClock < r[x].finishedClock
    {
      assert r[x] == Outcome(x, r[x].startClock, r[x].startClock + 1);
    }
    forall x, i | x in r && r[x].Completed? && 0 <= i < |steps| && x in steps[i].next
      ensures CompletedBy(r, steps[i].id, r[x].startClock)
    {
      assert Started(r, x);
    }
  }

  /** An id that some record lists is one of the workflow's ids. */
  lemma ListedId(steps: seq<Step>, i: nat, x: StepId)
    requires i < |steps| && x in steps[i].next
    ensures x in AllIds(steps)
  {
    ListedCount(steps, x);
  }

  /** A declared id that no record lists runs in tick 0. */
  lemma RootRuns(steps: seq<Step>, r: WorkflowState, x: StepId)
    requires WorkflowContract(steps, r)
    requires x in Ids(steps) && !Listed(steps, x)
    ensures x in r && r[x] == Outcome(x, 0, 1)
  {
    assert DependenciesReleased(steps, r, x);
    assert Started(r, x);
  }

  /**
   * An id whose listing records are all the last of their ids and all
   * COMPLETED at the end of tick `t` runs in tick `t`.
   */
  lemma ReleasedAt(steps: seq<Step>, r: WorkflowState, x: StepId, t: int)
    requires WorkflowContract(steps, r)
    requires x != "" && Listed(steps, x)
    requires forall i :: 0 <= i < |steps| && x in steps[i].next ==> IsLast(steps, i) && FinishedAt(r, steps[i].id, t)
    ensures x in r && r[x] == Outcome(x, t, t + 1)
  {
    var i :| 0 <= i < |steps| && x in steps[i].next;
    ListedId(steps, i, x);
    forall j | 0 <= j < |steps| && x in steps[j].next ensures Consumed(steps, Done(r), j) {
      assert steps[j].id in Done(r);
    }
    assert Started(r, x);
    var j :| 0 <= j < |steps| && x in steps[j].next && FinishedAt(r, steps[j].id, r[x].startClock);
    assert FinishedAt(r, steps[j].id, t);
  }

  /** An id listed only by record `i`, the last of its id, runs in the tick in which that id completed. */
  lemma SoleLister(steps: seq<Step>, r: WorkflowState, x: StepId, i: nat, t: int)
    requires WorkflowContract(steps, r)
    requires x != "" && i < |steps| && x in steps[i].next && IsLast(steps, i) && FinishedAt(r, steps[i].id, t)
    requires forall j :: 0 <= j < |steps| && x in steps[j].next ==> j == i
    ensures x in r && r[x] == Outcome(x, t, t + 1)
  {
    ReleasedAt(steps, r, x, t);
  }

  /** An id listed only by records `i` and `k`, the last of their ids, both COMPLETED at the end of tick `t`, runs in tick `t`. */
  lemma TwoListers(steps: seq<Step>, r: WorkflowState, x: StepId, i: nat, k: nat, t: int)
    requires WorkflowContract(steps, r)
    requires x != "" && i < |steps| && x in steps[i].next && k < |steps|
    requires IsLast(steps, i) && FinishedAt(r, steps[i].id, t) && IsLast(steps, k) && FinishedAt(r, steps[k].id, t)
    requires forall j :: 0 <= j < |steps| && x in steps[j].next ==> j == i || j == k
    ensures x in r && r[x] == Outcome(x, t, t + 1)
  {
    ReleasedAt(steps, r, x, t);
  }

  /**
   * A record whose id did not complete keeps every id it lists from
   * running; a declared one stays WAITING.
   */
  lemma Blocked(steps: seq<Step>, r: WorkflowState, i: nat, x: StepId)
    requires WorkflowContract(steps, r)
    requires i < |steps| && x in steps[i].next && !(steps[i].id in r && r[steps[i].id].Completed?)
    ensures !Started(r, x)
    ensures x in Ids(steps) ==> x in r && r[x] == Waiting
  {
    ListedId(steps, i, x);
    assert !Consumed(steps, Done(r), i);
  }

  /**
   * A record that a later record with the same id overrides is never
   * consumed: the successor map keeps only the later `next` list, so the
   * ids the earlier one lists never run.
   */
  lemma ShadowedBlocks(steps: seq<Step>, r: WorkflowState, i: nat, j: nat, x: StepId)
    requires WorkflowContract(steps, r)
    requires i < j < |steps| && steps[i].id == steps[j].id && x in steps[i].next
    ensures !Started(r, x)
  {
    ListedId(steps, i, x);
    assert !IsLast(steps, i);
    assert !Consumed(steps, Done(r), i);
  }

  /** Some record of `x` lists `y`. */
  ghost predicate Edge(steps: seq<Step>, x: StepId, y: StepId)
  {
    exists i :: 0 <= i < |steps| && steps[i].id == x && y in steps[i].next
  }

  /** `p` follows successor edges: each id is listed by a record of the id before it. */
  ghost predicate Path(steps: seq<Step>, p: seq<StepId>)
  {
    forall k :: 0 <= k < |p| - 1 ==> Edge(steps, p[k], p[k + 1])
  }

  /** No id listed by a record of an id that did not complete ever runs. */
  ghost predicate EdgesBlock(steps: seq<Step>, r: WorkflowState)
  {
    forall x, y :: Edge(steps, x, y) && !(x in r && r[x].Completed?) ==> !Started(r, y)
  }

  lemma ContractBlocks(steps: seq<Step>, r: WorkflowState)
    requires WorkflowContract(steps, r)
    ensures EdgesBlock(steps, r)
  {
    forall x, y | Edge(steps, x, y) && !(x in r && r[x].Completed?) ensures !Started(r, y) {
      var i :| 0 <= i < |steps| && steps[i].id == x && y in steps[i].next;
      Blocked(steps, r, i, y);
    }
  }

  /** Along a path out of an id that did not complete, no later id runs. */
  lemma {:induction false} PathWaits(steps: seq<Step>, r: WorkflowState, p: seq<StepId>)
    requires EdgesBlock(steps, r)
    requires |p| >= 1 && Path(steps, p) && !(p[0] in r && r[p[0]].Completed?)
    ensures forall k :: 1 <= k < |p| ==> !Started(r, p[k])
  {
    if |p| > 1 {
      assert Edge(steps, p[0], p[1]);
      var q := p[1..];
      assert Path(steps, q) by {
        forall k | 0 <= k < |q| - 1 ensures Edge(steps, q[k], q[k + 1]) {
          assert Edge(steps, p[k + 1], p[k + 2]);
        }
      }
      PathWaits(steps, r, q);
      forall k | 1 <= k < |p| ensures !Started(r, p[k]) {
        if k > 1 {
          assert p[k] == q[k - 1];
        }
      }
    }
  }

  /** Every id reachable from an id that did not complete never runs. */
  lemma DescendantsWait(steps: seq<Step>, r: WorkflowState, p: seq<StepId>)
    requires WorkflowContract(steps, r)
    requires |p| >= 1 && Path(steps, p) && !(p[0] in r && r[p[0]].Completed?)
    ensures forall k :: 1 <= k < |p| ==> !Started(r, p[k])
  {
    ContractBlocks(steps, r);
    PathWaits(steps, r, p);
  }

  /** The result of the empty workflow is empty. */
  lemma EmptyWorkflow(r: WorkflowState)
    requires WorkflowContract([], r)
    ensures r == map[]
  {
    assert AllIds([]) == {};
  }

  /** Every id the records list is declared by some record. */
  ghost predicate ClosedSteps(steps: seq<Step>)
  {
    forall i, y :: 0 <= i < |steps| && y in steps[i].next ==> y in Ids(steps)
  }

  /** Every successor a workflow names is also declared. */
  lemma Closed(steps: seq<Step>, r: WorkflowState)
    requires WorkflowContract(steps, r) && ClosedSteps(steps)
    ensures r.Keys == Ids(steps)
  {
    forall y | y in r ensures y in Ids(steps) {
      assert y in AllIds(steps);
      if y !in Ids(steps) {
        assert y in AllSuccessors(steps);
        ListedCount(steps, y);
      }
    }
  }

  /** Two maps with the same keys and the same value at each key are equal. */
  lemma SameMap(r: WorkflowState, m: WorkflowState)
    requires r.Keys == m.Keys && forall k :: k in m ==> r[k] == m[k]
    ensures r == m
  {
  }

  /** Two independent records. */
  function OrphanSteps(a: StepId, b: StepId): seq<Step>
  {
    [Step(a, []), Step(b, [])]
  }

  lemma OrphanShape(a: StepId, b: StepId)
    ensures var steps := OrphanSteps(a, b);
      Ids(steps) == {a, b} && ClosedSteps(steps) && !Listed(steps, a) && !Listed(steps, b)
  {
    var steps := OrphanSteps(a, b);
    assert steps[0].id == a && steps[1].id == b;
  }

  /** The map a run of the two records yields, from its keys and its entries. */
  lemma OrphanResult(a: StepId, b: StepId, r: WorkflowState)
    requires SimulateStepExecution(a) && SimulateStepExecution(b) && a != b && r.Keys == {a, b}
    requires r[a] == Outcome(a, 0, 1) && r[b] == Outcome(b, 0, 1)
    ensures r == map[a := Completed(0, 1), b := Completed(0, 1)]
  {
    SameMap(r, map[a := Completed(0, 1), b := Completed(0, 1)]);
  }

  /** Two steps without dependencies both run in tick 0. */
  lemma OrphansRunTogether(a: StepId, b: StepId, r: WorkflowState)
    requires SimulateStepExecution(a) && SimulateStepExecution(b) && a != b
    requires WorkflowContract(OrphanSteps(a, b), r)
    ensures r == map[a := Completed(0, 1), b := Completed(0, 1)]
  {
    OrphanShape(a, b);
    Closed(OrphanSteps(a, b), r);
    RootRuns(OrphanSteps(a, b), r, a);
    RootRuns(OrphanSteps(a, b), r, b);
    OrphanResult(a, b, r);
  }

  /** A chain of three records. */
  function ChainSteps(a: StepId, b: StepId, c: StepId): seq<Step>
  {
    [Step(a, [b]), Step(b, [c]), Step(c, [])]
  }

  lemma ChainIds(a: StepId, b: StepId, c: StepId)
    ensures Ids(ChainSteps(a, b, c)) == {a, b, c} && ClosedSteps(ChainSteps(a, b, c))
  {
    var steps := ChainSteps(a, b, c);
    assert steps[0].id == a && steps[1].id == b && steps[2].id == c;
  }

  /** Record `i` of the chain is the only one listing `x`, and the last of its id. */
  lemma ChainLister(a: StepId, b: StepId, c: StepId, i: nat, x: StepId)
    requires a != b && a != c && b != c
    requires (i == 0 && x == b) || (i == 1 && x == c)
    ensures var steps := ChainSteps(a, b, c);
      && i < |steps| && x in steps[i].next && IsLast(steps, i)
      && forall j :: 0 <= j < |steps| && x in steps[j].next ==> j == i
  {
  }

  lemma ChainRoot(a: StepId, b: StepId, c: StepId)
    requires a != b && a != c
    ensures a in Ids(ChainSteps(a, b, c)) && !Listed(ChainSteps(a, b, c), a)
  {
    assert ChainSteps(a, b, c)[0].id == a;
  }

  lemma ChainKeys(a: StepId, b: StepId, c: StepId, r: WorkflowState)
    requires WorkflowContract(ChainSteps(a, b, c), r)
    ensures r.Keys == {a, b, c}
  {
    ChainIds(a, b, c);
    Closed(ChainSteps(a, b, c), r);
  }

  lemma ChainFirst(a: StepId, b: StepId, c: StepId, r: WorkflowState)
    requires a != b && a != c && WorkflowContract(ChainSteps(a, b, c), r)
    ensures a in r && r[a] == Outcome(a, 0, 1)
  {
    ChainRoot(a, b, c);
    RootRuns(ChainSteps(a, b, c), r, a);
  }

  /** `x` is listed only by record `i`, whose id `p` completed at the end of tick `i + 1`. */
  lemma ChainNext(a: StepId, b: StepId, c: StepId, r: WorkflowState, i: nat, p: StepId, x: StepId)
    requires a != b && a != c && b != c && WorkflowContract(ChainSteps(a, b, c), r)
    requires (i == 0 && p == a && x == b) || (i == 1 && p == b && x == c)
    requires x != "" && p in r && r[p] == Outcome(p, i, i + 1) && SimulateStepExecution(p)
    ensures x in r && r[x] == Outcome(x, i + 1, i + 2)
  {
    ChainLister(a, b, c, i, x);
    SoleLister(ChainSteps(a, b, c), r, x, i, i + 1);
  }

  lemma ChainThirdWaits(a: StepId, b: StepId, c: StepId, r: WorkflowState)
    requires WorkflowContract(ChainSteps(a, b, c), r)
    requires !(b in r && r[b].Completed?)
    ensures c in r && r[c] == Waiting
  {
    ChainIds(a, b, c);
    assert ChainSteps(a, b, c)[1].id == b && c in ChainSteps(a, b, c)[1].next;
    Blocked(ChainSteps(a, b, c), r, 1, c);
  }

  /** The map a run of the chain yields, from its keys and its entries. */
  lemma ChainResult(a: StepId, b: StepId, c: StepId, r: WorkflowState, sb: StepState, sc: StepState)
    requires SimulateStepExecution(a) && a != b && a != c && b != c && r.Keys == {a, b, c}
    requires r[a] == Outcome(a, 0, 1) && r[b] == sb && r[c] == sc
    ensures r == map[a := Completed(0, 1), b := sb, c := sc]
  {
    SameMap(r, map[a := Completed(0, 1), b := sb, c := sc]);
  }

  /** A chain runs one step per tick. */
  lemma ChainRunsInOrder(a: StepId, b: StepId, c: StepId, r: WorkflowState)
    requires SimulateStepExecution(a) && SimulateStepExecution(b) && SimulateStepExecution(c) && a != b && a != c && b != c
    requires b != "" && c != ""
    requires WorkflowContract(ChainSteps(a, b, c), r)
    ensures r == map[a := Completed(0, 1), b := Completed(1, 2), c := Completed(2, 3)]
  {
    ChainKeys(a, b, c, r);
    ChainFirst(a, b, c, r);
    ChainNext(a, b, c, r, 0, a, b);
    ChainNext(a, b, c, r, 1, b, c);
    ChainResult(a, b, c, r, Outcome(b, 1, 2), Outcome(c, 2, 3));
  }

  /** A failed step in the middle of a chain keeps its successor WAITING. */
  lemma FailureStopsChain(a: StepId, b: StepId, c: StepId, r: WorkflowState)
    requires SimulateStepExecution(a) && b != "" && !SimulateStepExecution(b) && a != b && a != c && b != c
    requires WorkflowContract(ChainSteps(a, b, c), r)
    ensures r == map[a := Completed(0, 1), b := Failed(1, 2), c := Waiting]
  {
    ChainKeys(a, b, c, r);
    ChainFirst(a, b, c, r);
    ChainNext(a, b, c, r, 0, a, b);
    ChainThirdWaits(a, b, c, r);
    ChainResult(a, b, c, r, Outcome(b, 1, 2), Waiting);
  }

  /** Two branches that join: `a` lists `b` and `c`, which both list `d`, which lists `e`. */
  function DiamondSteps(a: StepId, b: StepId, c: StepId, d: StepId, e: StepId): seq<Step>
  {
    [Step(a, [b, c]), Step(b, [d]), Step(c, [d]), Step(d, [e]), Step(e, [])]
  }

  lemma DiamondIds(a: StepId, b: StepId, c: StepId, d: StepId, e: StepId)
    ensures Ids(DiamondSteps(a, b, c, d, e)) == {a, b, c, d, e} && ClosedSteps(DiamondSteps(a, b, c, d, e))
  {
    var steps := DiamondSteps(a, b, c, d, e);
    assert steps[0].id == a && steps[1].id == b && steps[2].id == c && steps[3].id == d && steps[4].id == e;
  }

  lemma DistinctFive(a: StepId, b: StepId, c: StepId, d: StepId, e: StepId)
    requires Distinct([a, b, c, d, e])
    ensures a != b && a != c && a != d && a != e && b != c && b != d && b != e && c != d && c != e && d != e
  {
    var ids := [a, b, c, d, e];
    assert ids[0] == a && ids[1] == b && ids[2] == c && ids[3] == d && ids[4] == e;
  }

  lemma DiamondRoot(a: StepId, b: StepId, c: StepId, d: StepId, e: StepId)
    requires Distinct([a, b, c, d, e])
    ensures a in Ids(DiamondSteps(a, b, c, d, e)) && !Listed(DiamondSteps(a, b, c, d, e), a)
  {
    DistinctFive(a, b, c, d, e);
    assert DiamondSteps(a, b, c, d, e)[0].id == a;
  }

  /** Record `i` of the diamond is the only one listing `x`, and the last of its id. */
  lemma DiamondLister(a: StepId, b: StepId, c: StepId, d: StepId, e: StepId, i: nat, x: StepId)
    requires Distinct([a, b, c, d, e])
    requires (i == 0 && (x == b || x == c)) || (i == 3 && x == e)
    ensures var steps := DiamondSteps(a, b, c, d, e);
      && i < |steps| && x in steps[i].next && IsLast(steps, i)
      && forall j :: 0 <= j < |steps| && x in steps[j].next ==> j == i
  {
    DistinctFive(a, b, c, d, e);
  }

  /** Records 1 and 2 are the only ones listing `d`, and the last of their ids. */
  lemma DiamondJoinListers(a: StepId, b: StepId, c: StepId, d: StepId, e: StepId)
    requires Distinct([a, b, c, d, e])
    ensures var steps := DiamondSteps(a, b, c, d, e);
      && d in steps[1].next && IsLast(steps, 1) && IsLast(steps, 2)
      && forall j :: 0 <= j < |steps| && d in steps[j].next ==> j == 1 || j == 2
  {
    DistinctFive(a, b, c, d, e);
  }

  lemma DiamondKeys(a: StepId, b: StepId, c: StepId, d: StepId, e: StepId, r: WorkflowState)
    requires WorkflowContract(DiamondSteps(a, b, c, d, e), r)
    ensures r.Keys == {a, b, c, d, e}
  {
    DiamondIds(a, b, c, d, e);
    Closed(DiamondSteps(a, b, c, d, e), r);
  }

  lemma DiamondFirst(a: StepId, b: StepId, c: StepId, d: StepId, e: StepId, r: WorkflowState)
    requires Distinct([a, b, c, d, e]) && WorkflowContract(DiamondSteps(a, b, c, d, e), r)
    ensures a in r && r[a] == Outcome(a, 0, 1)
  {
    DiamondRoot(a, b, c, d, e);
    RootRuns(DiamondSteps(a, b, c, d, e), r, a);
  }

  /** `x` is listed only by record `i`, whose id `p` completed at the end of tick `t`. */
  lemma DiamondNext(a: StepId, b: StepId, c: StepId, d: StepId, e: StepId, r: WorkflowState, i: nat, p: StepId, x: StepId, t: nat)
    requires Distinct([a, b, c, d, e]) && WorkflowContract(DiamondSteps(a, b, c, d, e), r)
    requires (i == 0 && p == a && (x == b || x == c) && t == 1) || (i == 3 && p == d && x == e && t == 3)
    requires x != "" && p in r && r[p] == Outcome(p, t - 1, t) && SimulateStepExecution(p)
    ensures x in r && r[x] == Outcome(x, t, t + 1)
  {
    DiamondLister(a, b, c, d, e, i, x);
    SoleLister(DiamondSteps(a, b, c, d, e), r, x, i, t);
  }

  /** The root runs in tick 0 and both branches in tick 1. */
  lemma DiamondBranches(a: StepId, b: StepId, c: StepId, d: StepId, e: StepId, r: WorkflowState)
    requires SimulateStepExecution(a) && b != "" && c != ""
    requires Distinct([a, b, c, d, e]) && WorkflowContract(DiamondSteps(a, b, c, d, e), r)
    ensures a in r && r[a] == Outcome(a, 0, 1)
    ensures b in r && r[b] == Outcome(b, 1, 2) && c in r && r[c] == Outcome(c, 1, 2)
  {
    DiamondFirst(a, b, c, d, e, r);
    DiamondNext(a, b, c, d, e, r, 0, a, b, 1);
    DiamondNext(a, b, c, d, e, r, 0, a, c, 1);
  }

  /** The join runs in the tick after both branches completed. */
  lemma DiamondJoin(a: StepId, b: StepId, c: StepId, d: StepId, e: StepId, r: WorkflowState)
    requires d != "" && Distinct([a, b, c, d, e]) && WorkflowContract(DiamondSteps(a, b, c, d, e), r)
    requires b in r && r[b] == Outcome(b, 1, 2) && SimulateStepExecution(b)
    requires c in r && r[c] == Outcome(c, 1, 2) && SimulateStepExecution(c)
    ensures d in r && r[d] == Outcome(d, 2, 3)
  {
    DiamondJoinListers(a, b, c, d, e);
    TwoListers(DiamondSteps(a, b, c, d, e), r, d, 1, 2, 2);
  }

  /** The map a run of the diamond yields, from its keys and its entries. */
  lemma DiamondResult(a: StepId, b: StepId, c: StepId, d: StepId, e: StepId, r: WorkflowState)
    requires SimulateStepExecution(a) && SimulateStepExecution(b) && SimulateStepExecution(c) && SimulateStepExecution(d) && SimulateStepExecution(e) && Distinct([a, b, c, d, e])
    requires r.Keys == {a, b, c, d, e}
    requires r[a] == Outcome(a, 0, 1) && r[b] == Outcome(b, 1, 2) && r[c] == Outcome(c, 1, 2)
    requires r[d] == Outcome(d, 2, 3) && r[e] == Outcome(e, 3, 4)
    ensures r == map[a := Completed(0, 1), b := Completed(1, 2), c := Completed(1, 2), d := Completed(2, 3), e := Completed(3, 4)]
  {
    SameMap(r, map[a := Completed(0, 1), b := Completed(1, 2), c := Completed(1, 2), d := Completed(2, 3), e := Completed(3, 4)]);
  }

  /** The two branches run in the same tick, and the join waits for both. */
  lemma DiamondRunsBranchesTogether(a: StepId, b: StepId, c: StepId, d: StepId, e: StepId, r: WorkflowState)
    requires SimulateStepExecution(a) && SimulateStepExecution(b) && SimulateStepExecution(c) && SimulateStepExecution(d) && SimulateStepExecution(e) && Distinct([a, b, c, d, e])
    requires b != "" && c != "" && d != "" && e != ""
    requires WorkflowContract(DiamondSteps(a, b, c, d, e), r)
    ensures r == map[a := Completed(0, 1), b := Completed(1, 2), c := Completed(1, 2), d := Completed(2, 3), e := Completed(3, 4)]
  {
    DiamondKeys(a, b, c, d, e, r);
    DiamondBranches(a, b, c, d, e, r);
    DiamondJoin(a, b, c, d, e, r);
    DiamondNext(a, b, c, d, e, r, 3, d, e, 3);
    DiamondResult(a, b, c, d, e, r);
  }

  /** Two branches that join, without a step after the join. */
  function BranchSteps(a: StepId, b: StepId, c: StepId, d: StepId): seq<Step>
  {
    [Step(a, [b, c]), Step(b, [d]), Step(c, [d]), Step(d, [])]
  }

  lemma BranchIds(a: StepId, b: StepId, c: StepId, d: StepId)
    ensures Ids(BranchSteps(a, b, c, d)) == {a, b, c, d} && ClosedSteps(BranchSteps(a, b, c, d))
  {
    var steps := BranchSteps(a, b, c, d);
    assert steps[0].id == a && steps[1].id == b && steps[2].id == c && steps[3].id == d;
  }

  lemma DistinctFour(a: StepId, b: StepId, c: StepId, d: StepId)
    requires Distinct([a, b, c, d])
    ensures a != b && a != c && a != d && b != c && b != d && c != d
  {
    var ids := [a, b, c, d];
    assert ids[0] == a && ids[1] == b && ids[2] == c && ids[3] == d;
  }

  lemma BranchRoot(a: StepId, b: StepId, c: StepId, d: StepId)
    requires Distinct([a, b, c, d])
    ensures a in Ids(BranchSteps(a, b, c, d)) && !Listed(BranchSteps(a, b, c, d), a)
  {
    DistinctFour(a, b, c, d);
    assert BranchSteps(a, b, c, d)[0].id == a;
  }

  /** Record 0 is the only one listing `x`, and the last of its id. */
  lemma BranchLister(a: StepId, b: StepId, c: StepId, d: StepId, x: StepId)
    requires Distinct([a, b, c, d]) && (x == b || x == c)
    ensures var steps := BranchSteps(a, b, c, d);
      && x in steps[0].next && IsLast(steps, 0)
      && forall j :: 0 <= j < |steps| && x in steps[j].next ==> j == 0
  {
    DistinctFour(a, b, c, d);
  }

  lemma BranchKeys(a: StepId, b: StepId, c: StepId, d: StepId, r: WorkflowState)
    requires WorkflowContract(BranchSteps(a, b, c, d), r)
    ensures r.Keys == {a, b, c, d}
  {
    BranchIds(a, b, c, d);
    Closed(BranchSteps(a, b, c, d), r);
  }

  lemma BranchFirst(a: StepId, b: StepId, c: StepId, d: StepId, r: WorkflowState)
    requires Distinct([a, b, c, d]) && WorkflowContract(BranchSteps(a, b, c, d), r)
    ensures a in r && r[a] == Outcome(a, 0, 1)
  {
    BranchRoot(a, b, c, d);
    RootRuns(BranchSteps(a, b, c, d), r, a);
  }

  /** `x` is `b` or `c`: listed only by `a`'s record, it runs in tick 1. */
  lemma BranchArm(a: StepId, b: StepId, c: StepId, d: StepId, r: WorkflowState, x: StepId)
    requires x == b || x == c
    requires x != "" && Distinct([a, b, c, d]) && WorkflowContract(BranchSteps(a, b, c, d), r)
    requires a in r && r[a] == Outcome(a, 0, 1) && SimulateStepExecution(a)
    ensures x in r && r[x] == Outcome(x, 1, 2)
  {
    BranchLister(a, b, c, d, x);
    SoleLister(BranchSteps(a, b, c, d), r, x, 0, 1);
  }

  lemma BranchJoinWaits(a: StepId, b: StepId, c: StepId, d: StepId, r: WorkflowState)
    requires WorkflowContract(BranchSteps(a, b, c, d), r)
    requires !(c in r && r[c].Completed?)
    ensures d in r && r[d] == Waiting
  {
    BranchIds(a, b, c, d);
    assert BranchSteps(a, b, c, d)[2].id == c && d in BranchSteps(a, b, c, d)[2].next;
    Blocked(BranchSteps(a, b, c, d), r, 2, d);
  }

  /** Records 1 and 2 are the only ones listing `d`, and the last of their ids. */
  lemma BranchJoinListers(a: StepId, b: StepId, c: StepId, d: StepId)
    requires Distinct([a, b, c, d])
    ensures var steps := BranchSteps(a, b, c, d);
      && d in steps[1].next && IsLast(steps, 1) && IsLast(steps, 2)
      && forall j :: 0 <= j < |steps| && d in steps[j].next ==> j == 1 || j == 2
  {
    DistinctFour(a, b, c, d);
  }

  /** The join runs in the tick after both branches completed. */
  lemma BranchJoin(a: StepId, b: StepId, c: StepId, d: StepId, r: WorkflowState)
    requires d != "" && Distinct([a, b, c, d]) && WorkflowContract(BranchSteps(a, b, c, d), r)
    requires b in r && r[b] == Outcome(b, 1, 2) && SimulateStepExecution(b)
    requires c in r && r[c] == Outcome(c, 1, 2) && SimulateStepExecution(c)
    ensures d in r && r[d] == Outcome(d, 2, 3)
  {
    BranchJoinListers(a, b, c, d);
    TwoListers(BranchSteps(a, b, c, d), r, d, 1, 2, 2);
  }

  /** The map a run of the branches yields, from its keys and its entries. */
  lemma BranchResult(a: StepId, b: StepId, c: StepId, d: StepId, r: WorkflowState, sc: StepState, sd: StepState)
    requires SimulateStepExecution(a) && SimulateStepExecution(b) && Distinct([a, b, c, d]) && r.Keys == {a, b, c, d}
    requires r[a] == Outcome(a, 0, 1) && r[b] == Outcome(b, 1, 2) && r[c] == sc && r[d] == sd
    ensures r == map[a := Completed(0, 1), b := Completed(1, 2), c := sc, d := sd]
  {
    SameMap(r, map[a := Completed(0, 1), b := Completed(1, 2), c := sc, d := sd]);
  }

  /** Both branches run in tick 1 and the join in tick 2, once both completed. */
  lemma BranchesJoin(a: StepId, b: StepId, c: StepId, d: StepId, r: WorkflowState)
    requires SimulateStepExecution(a) && SimulateStepExecution(b) && SimulateStepExecution(c) && SimulateStepExecution(d) && Distinct([a, b, c, d])
    requires b != "" && c != "" && d != ""
    requires WorkflowContract(BranchSteps(a, b, c, d), r)
    ensures r == map[a := Completed(0, 1), b := Completed(1, 2), c := Completed(1, 2), d := Completed(2, 3)]
  {
    BranchKeys(a, b, c, d, r);
    BranchFirst(a, b, c, d, r);
    BranchArm(a, b, c, d, r, b);
    BranchArm(a, b, c, d, r, c);
    BranchJoin(a, b, c, d, r);
    BranchResult(a, b, c, d, r, Outcome(c, 1, 2), Outcome(d, 2, 3));
  }

  /** A join with one failed branch stays WAITING although the other branch completed. */
  lemma PartialFailureBlocksJoin(a: StepId, b: StepId, c: StepId, d: StepId, r: WorkflowState)
    requires SimulateStepExecution(a) && SimulateStepExecution(b) && b != "" && c != "" && !SimulateStepExecution(c) && Distinct([a, b, c, d])
    requires WorkflowContract(BranchSteps(a, b, c, d), r)
    ensures r == map[a := Completed(0, 1), b := Completed(1, 2), c := Failed(1, 2), d := Waiting]
  {
    BranchKeys(a, b, c, d, r);
    BranchFirst(a, b, c, d, r);
    BranchArm(a, b, c, d, r, b);
    BranchArm(a, b, c, d, r, c);
    BranchJoinWaits(a, b, c, d, r);
    BranchResult(a, b, c, d, r, Outcome(c, 1, 2), Waiting);
  }

  /** A single record. */
  lemma SingleStepRuns(a: StepId, r: WorkflowState)
    requires SimulateStepExecution(a) && WorkflowContract([Step(a, [])], r)
    ensures r == map[a := Completed(0, 1)]
  {
    SingleShape(a);
    Closed([Step(a, [])], r);
    RootRuns([Step(a, [])], r, a);
    SingleResult(a, r);
  }

  lemma SingleShape(a: StepId)
    ensures Ids([Step(a, [])]) == {a} && ClosedSteps([Step(a, [])]) && !Listed([Step(a, [])], a)
  {
    assert [Step(a, [])][0].id == a;
  }

  lemma SingleResult(a: StepId, r: WorkflowState)
    requires SimulateStepExecution(a) && r.Keys == {a} && r[a] == Outcome(a, 0, 1)
    ensures r == map[a := Completed(0, 1)]
  {
    SameMap(r, map[a := Completed(0, 1)]);
  }

  /** Two independent chains: `a` lists `b`; `c` lists `d`, which lists `e`. */
  function TwoChainSteps(a: StepId, b: StepId, c: StepId, d: StepId, e: StepId): seq<Step>
  {
    [Step(a, [b]), Step(b, []), Step(c, [d]), Step(d, [e]), Step(e, [])]
  }

  lemma TwoChainIds(a: StepId, b: StepId, c: StepId, d: StepId, e: StepId)
    ensures Ids(TwoChainSteps(a, b, c, d, e)) == {a, b, c, d, e} && ClosedSteps(TwoChainSteps(a, b, c, d, e))
  {
    var steps := TwoChainSteps(a, b, c, d, e);
    assert steps[0].id == a && steps[1].id == b && steps[2].id == c && steps[3].id == d && steps[4].id == e;
  }

  /** `x` is `a` or `c`: no record lists it. */
  lemma TwoChainRoot(a: StepId, b: StepId, c: StepId, d: StepId, e: StepId, x: StepId)
    requires Distinct([a, b, c, d, e]) && (x == a || x == c)
    ensures x in Ids(TwoChainSteps(a, b, c, d, e)) && !Listed(TwoChainSteps(a, b, c, d, e), x)
  {
    DistinctFive(a, b, c, d, e);
    var steps := TwoChainSteps(a, b, c, d, e);
    assert steps[0].id == a && steps[2].id == c;
  }

  /** Record `i` of the two chains is the only one listing `x`, and the last of its id. */
  lemma TwoChainLister(a: StepId, b: StepId, c: StepId, d: StepId, e: StepId, i: nat, x: StepId)
    requires Distinct([a, b, c, d, e])
    requires (i == 0 && x == b) || (i == 2 && x == d) || (i == 3 && x == e)
    ensures var steps := TwoChainSteps(a, b, c, d, e);
      && i < |steps| && x in steps[i].next && IsLast(steps, i)
      && forall j :: 0 <= j < |steps| && x in steps[j].next ==> j == i
  {
    DistinctFive(a, b, c, d, e);
  }

  lemma TwoChainKeys(a: StepId, b: StepId, c: StepId, d: StepId, e: StepId, r: WorkflowState)
    requires WorkflowContract(TwoChainSteps(a, b, c, d, e), r)
    ensures r.Keys == {a, b, c, d, e}
  {
    TwoChainIds(a, b, c, d, e);
    Closed(TwoChainSteps(a, b, c, d, e), r);
  }

  lemma TwoChainFirst(a: StepId, b: StepId, c: StepId, d: StepId, e: StepId, r: WorkflowState, x: StepId)
    requires x == a || x == c
    requires Distinct([a, b, c, d, e]) && WorkflowContract(TwoChainSteps(a, b, c, d, e), r)
    ensures x in r && r[x] == Outcome(x, 0, 1)
  {
    TwoChainRoot(a, b, c, d, e, x);
    RootRuns(TwoChainSteps(a, b, c, d, e), r, x);
  }

  /** `x` is listed only by record `i`, whose id `p` completed at the end of tick `t`. */
  lemma TwoChainNext(a: StepId, b: StepId, c: StepId, d: StepId, e: StepId, r: WorkflowState, i: nat, p: StepId, x: StepId, t: nat)
    requires Distinct([a, b, c, d, e]) && WorkflowContract(TwoChainSteps(a, b, c, d, e), r)
    requires (i == 0 && p == a && x == b && t == 1) || (i == 2 && p == c && x == d && t == 1) || (i == 3 && p == d && x == e && t == 2)
    requires x != "" && p in r && r[p] == Outcome(p, t - 1, t) && SimulateStepExecution(p)
    ensures x in r && r[x] == Outcome(x, t, t + 1)
  {
    TwoChainLister(a, b, c, d, e, i, x);
    SoleLister(TwoChainSteps(a, b, c, d, e), r, x, i, t);
  }

  /** The map a run of the two chains yields, from its keys and its entries. */
  lemma TwoChainResult(a: StepId, b: StepId, c: StepId, d: StepId, e: StepId, r: WorkflowState)
    requires SimulateStepExecution(a) && SimulateStepExecution(b) && SimulateStepExecution(c) && SimulateStepExecution(d) && SimulateStepExecution(e) && Distinct([a, b, c, d, e])
    requires r.Keys == {a, b, c, d, e}
    requires r[a] == Outcome(a, 0, 1) && r[b] == Outcome(b, 1, 2) && r[c] == Outcome(c, 0, 1)
    requires r[d] == Outcome(d, 1, 2) && r[e] == Outcome(e, 2, 3)
    ensures r == map[a := Completed(0, 1), b := Completed(1, 2), c := Completed(0, 1), d := Completed(1, 2), e := Completed(2, 3)]
  {
    SameMap(r, map[a := Completed(0, 1), b := Completed(1, 2), c := Completed(0, 1), d := Completed(1, 2), e := Completed(2, 3)]);
  }

  /** The short chain: `a` runs in tick 0 and `b` in tick 1. */
  lemma TwoChainShort(a: StepId, b: StepId, c: StepId, d: StepId, e: StepId, r: WorkflowState)
    requires SimulateStepExecution(a) && b != ""
    requires Distinct([a, b, c, d, e]) && WorkflowContract(TwoChainSteps(a, b, c, d, e), r)
    ensures a in r && r[a] == Outcome(a, 0, 1) && b in r && r[b] == Outcome(b, 1, 2)
  {
    TwoChainFirst(a, b, c, d, e, r, a);
    TwoChainNext(a, b, c, d, e, r, 0, a, b, 1);
  }

  /** The long chain: `c`, `d` and `e` run in ticks 0, 1 and 2. */
  lemma TwoChainLong(a: StepId, b: StepId, c: StepId, d: StepId, e: StepId, r: WorkflowState)
    requires SimulateStepExecution(c) && SimulateStepExecution(d) && d != "" && e != ""
    requires Distinct([a, b, c, d, e]) && WorkflowContract(TwoChainSteps(a, b, c, d, e), r)
    ensures c in r && r[c] == Outcome(c, 0, 1) && d in r && r[d] == Outcome(d, 1, 2)
    ensures e in r && r[e] == Outcome(e, 2, 3)
  {
    TwoChainFirst(a, b, c, d, e, r, c);
    TwoChainNext(a, b, c, d, e, r, 2, c, d, 1);
    TwoChainNext(a, b, c, d, e, r, 3, d, e, 2);
  }

  /** Independent chains advance side by side, one step per tick each. */
  lemma IndependentChainsInterleave(a: StepId, b: StepId, c: StepId, d: StepId, e: StepId, r: WorkflowState)
    requires SimulateStepExecution(a) && SimulateStepExecution(b) && SimulateStepExecution(c) && SimulateStepExecution(d) && SimulateStepExecution(e) && Distinct([a, b, c, d, e])
    requires b != "" && d != "" && e != ""
    requires WorkflowContract(TwoChainSteps(a, b, c, d, e), r)
    ensures r == map[a := Completed(0, 1), b := Completed(1, 2), c := Completed(0, 1), d := Completed(1, 2), e := Completed(2, 3)]
  {
    TwoChainKeys(a, b, c, d, e, r);
    TwoChainShort(a, b, c, d, e, r);
    TwoChainLong(a, b, c, d, e, r);
    TwoChainResult(a, b, c, d, e, r);
  }

  /** `a` lists `u`, which no record declares. */
  lemma UndeclaredShape(a: StepId, u: StepId)
    requires a != u
    ensures var steps := [Step(a, [u])];
      && Ids(steps) == {a} && AllIds(steps) == {a, u} && a in Ids(steps) && !Listed(steps, a)
      && u in steps[0].next && IsLast(steps, 0) && forall j :: 0 <= j < |steps| && u in steps[j].next ==> j == 0
  {
    var steps := [Step(a, [u])];
    assert steps[0].id == a && AllSuccessors(steps) == [u];
  }

  lemma UndeclaredFirst(a: StepId, u: StepId, r: WorkflowState)
    requires a != u && WorkflowContract([Step(a, [u])], r)
    ensures {a} <= r.Keys <= {a, u}
    ensures a in r && r[a] == Outcome(a, 0, 1)
  {
    UndeclaredShape(a, u);
    RootRuns([Step(a, [u])], r, a);
  }

  lemma UndeclaredNext(a: StepId, u: StepId, r: WorkflowState)
    requires u != "" && a != u && WorkflowContract([Step(a, [u])], r)
    requires a in r && r[a] == Outcome(a, 0, 1) && SimulateStepExecution(a)
    ensures u in r && r[u] == Outcome(u, 1, 2)
  {
    UndeclaredShape(a, u);
    SoleLister([Step(a, [u])], r, u, 0, 1);
  }

  lemma UndeclaredResult(a: StepId, u: StepId, r: WorkflowState)
    requires SimulateStepExecution(a) && a != u && {a} <= r.Keys <= {a, u} && u in r
    requires r[a] == Outcome(a, 0, 1) && r[u] == Outcome(u, 1, 2)
    ensures r == map[a := Completed(0, 1), u := Outcome(u, 1, 2)]
  {
    SameMap(r, map[a := Completed(0, 1), u := Outcome(u, 1, 2)]);
  }

  /**
   * A successor no record declares still gets an in-degree, runs once its
   * lister completed, and appears in the result although it was never
   * WAITING in the initial state.
   */
  lemma UndeclaredSuccessorRuns(a: StepId, u: StepId, r: WorkflowState)
    requires SimulateStepExecution(a) && u != "" && a != u
    requires WorkflowContract([Step(a, [u])], r)
    ensures r == map[a := Completed(0, 1), u := Outcome(u, 1, 2)]
  {
    UndeclaredFirst(a, u, r);
    UndeclaredNext(a, u, r);
    UndeclaredResult(a, u, r);
  }

  lemma EmptySuccessorShape(a: StepId)
    requires a != ""
    ensures var steps := [Step(a, [""])];
      && Ids(steps) == {a} && AllIds(steps) == {a, ""} && !Listed(steps, a) && Listed(steps, "")
  {
    var steps := [Step(a, [""])];
    assert steps[0].id == a && "" in steps[0].next && AllSuccessors(steps) == [""];
  }

  lemma EmptySuccessorKeys(a: StepId, r: WorkflowState)
    requires a != "" && WorkflowContract([Step(a, [""])], r)
    ensures r.Keys == {a}
  {
    EmptySuccessorShape(a);
    assert !Started(r, "");
  }

  /**
   * The successor loop never decrements the empty-string id, so a step
   * listing "" never releases it: "" never runs and has no state.
   */
  lemma EmptySuccessorNeverRuns(a: StepId, r: WorkflowState)
    requires SimulateStepExecution(a) && a != "" && WorkflowContract([Step(a, [""])], r)
    ensures r == map[a := Completed(0, 1)]
  {
    EmptySuccessorKeys(a, r);
    EmptySuccessorShape(a);
    RootRuns([Step(a, [""])], r, a);
    SingleResult(a, r);
  }

  /** `a` lists `b` twice; `b` is declared. */
  lemma TwiceShape(a: StepId, b: StepId)
    requires a != b
    ensures var steps := [Step(a, [b, b]), Step(b, [])];
      && Ids(steps) == {a, b} && ClosedSteps(steps) && a in Ids(steps) && !Listed(steps, a)
      && b in steps[0].next && IsLast(steps, 0) && forall j :: 0 <= j < |steps| && b in steps[j].next ==> j == 0
  {
    var steps := [Step(a, [b, b]), Step(b, [])];
    assert steps[0].id == a && steps[1].id == b;
  }

  lemma TwiceFirst(a: StepId, b: StepId, r: WorkflowState)
    requires a != b && WorkflowContract([Step(a, [b, b]), Step(b, [])], r)
    ensures r.Keys == {a, b}
    ensures a in r && r[a] == Outcome(a, 0, 1)
  {
    TwiceShape(a, b);
    Closed([Step(a, [b, b]), Step(b, [])], r);
    RootRuns([Step(a, [b, b]), Step(b, [])], r, a);
  }

  lemma TwiceNext(a: StepId, b: StepId, r: WorkflowState)
    requires b != "" && a != b && WorkflowContract([Step(a, [b, b]), Step(b, [])], r)
    requires a in r && r[a] == Outcome(a, 0, 1) && SimulateStepExecution(a)
    ensures b in r && r[b] == Outcome(b, 1, 2)
  {
    TwiceShape(a, b);
    SoleLister([Step(a, [b, b]), Step(b, [])], r, b, 0, 1);
  }

  lemma PairResult(a: StepId, b: StepId, r: WorkflowState, sb: StepState)
    requires SimulateStepExecution(a) && a != b && r.Keys == {a, b}
    requires r[a] == Outcome(a, 0, 1) && r[b] == sb
    ensures r == map[a := Completed(0, 1), b := sb]
  {
    SameMap(r, map[a := Completed(0, 1), b := sb]);
  }

  /**
   * A successor listed twice by one step counts twice and is decremented
   * twice when that step completes, so it runs in the next tick.
   */
  lemma DuplicateSuccessorRuns(a: StepId, b: StepId, r: WorkflowState)
    requires SimulateStepExecution(a) && SimulateStepExecution(b) && b != "" && a != b
    requires WorkflowContract([Step(a, [b, b]), Step(b, [])], r)
    ensures r == map[a := Completed(0, 1), b := Completed(1, 2)]
  {
    TwiceFirst(a, b, r);
    TwiceNext(a, b, r);
    PairResult(a, b, r, Outcome(b, 1, 2));
  }

  /** `a` is declared twice, first listing `b`, then listing nothing. */
  lemma ShadowShape(a: StepId, b: StepId)
    requires a != b
    ensures var steps := [Step(a, [b]), Step(a, []), Step(b, [])];
      && Ids(steps) == {a, b} && ClosedSteps(steps) && a in Ids(steps) && !Listed(steps, a)
      && steps[0].id == steps[1].id && b in steps[0].next
  {
    var steps := [Step(a, [b]), Step(a, []), Step(b, [])];
    assert steps[0].id == a && steps[1].id == a && steps[2].id == b;
  }

  lemma ShadowFirst(a: StepId, b: StepId, r: WorkflowState)
    requires a != b && WorkflowContract([Step(a, [b]), Step(a, []), Step(b, [])], r)
    ensures r.Keys == {a, b}
    ensures a in r && r[a] == Outcome(a, 0, 1)
  {
    ShadowShape(a, b);
    Closed([Step(a, [b]), Step(a, []), Step(b, [])], r);
    RootRuns([Step(a, [b]), Step(a, []), Step(b, [])], r, a);
  }

  lemma ShadowNext(a: StepId, b: StepId, r: WorkflowState)
    requires a != b && WorkflowContract([Step(a, [b]), Step(a, []), Step(b, [])], r)
    requires b in r
    ensures r[b] == Waiting
  {
    ShadowShape(a, b);
    ShadowedBlocks([Step(a, [b]), Step(a, []), Step(b, [])], r, 0, 1, b);
  }

  /**
   * A later record with the same id replaces the successor list of an
   * earlier one: the successor only the earlier record lists is never
   * released and stays WAITING.
   */
  lemma RedeclaredStepDropsSuccessors(a: StepId, b: StepId, r: WorkflowState)
    requires SimulateStepExecution(a) && a != b
    requires WorkflowContract([Step(a, [b]), Step(a, []), Step(b, [])], r)
    ensures r == map[a := Completed(0, 1), b := Waiting]
  {
    ShadowFirst(a, b, r);
    ShadowNext(a, b, r);
    PairResult(a, b, r, Waiting);
  }
}
