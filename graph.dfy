/**
 * The graph builder and the ready-queue seeding of the workflow engine:
 * the initial workflow state, the successor map, the in-degree map (a
 * JavaScript `Map`, so its keys keep insertion order) and the initial queue.
 */
module Graph {
  import opened Types

  /** The identifiers declared by step records (duplicates collapse). */
  function Ids(steps: seq<Step>): set<StepId>
  {
    set i | 0 <= i < |steps| :: steps[i].id
  }

  /** Every `next` list, concatenated in declaration order. */
  function AllSuccessors(steps: seq<Step>): seq<StepId>
  {
    if steps == [] then [] else AllSuccessors(steps[..|steps| - 1]) + steps[|steps| - 1].next
  }

  /** Every identifier that is declared or named as a successor. */
  function AllIds(steps: seq<Step>): set<StepId>
  {
    Ids(steps) + set y | y in AllSuccessors(steps)
  }

  /** Some record lists `x` among its successors. */
  predicate Listed(steps: seq<Step>, x: StepId)
  {
    exists i :: 0 <= i < |steps| && x in steps[i].next
  }

  lemma IdsSnoc(steps: seq<Step>, i: nat)
    requires i < |steps|
    ensures Ids(steps[..i + 1]) == Ids(steps[..i]) + {steps[i].id}
  {
    var a, b := steps[..i + 1], steps[..i];
    forall x | x in Ids(a) ensures x in Ids(b) + {steps[i].id} {
      var k :| 0 <= k < |a| && a[k].id == x;
      if k < i { assert b[k].id == x; }
    }
    forall x | x in Ids(b) + {steps[i].id} ensures x in Ids(a) {
      if x == steps[i].id {
        assert a[i].id == x;
      } else {
        var k :| 0 <= k < |b| && b[k].id == x;
        assert a[k].id == x;
      }
    }
  }

  /**
   * The order in which the in-degree map first sees identifiers: for each
   * record, its own id and then each of its successors.
   */
  function Touches(steps: seq<Step>): (t: seq<StepId>)
    ensures forall x :: x in t <==> x in AllIds(steps)
  {
    if steps == [] then []
    else
      var n := |steps| - 1;
      IdsSnoc(steps, n);
      assert steps[..n + 1] == steps;
      Touches(steps[..n]) + [steps[n].id] + steps[n].next
  }

  /** The keys of `s` in order of first occurrence. */
  function Dedup(s: seq<StepId>): (r: seq<StepId>)
    ensures Distinct(r)
    ensures forall x :: x in r <==> x in s
  {
    if s == [] then []
    else
      var d := Dedup(s[..|s| - 1]);
      assert s == s[..|s| - 1] + [s[|s| - 1]];
      if s[|s| - 1] in d then d else d + [s[|s| - 1]]
  }

  /** The index of the last record declaring `x`: the one a later `Map.set` leaves in place. */
  function LastIndex(steps: seq<Step>, x: StepId): (i: nat)
    requires x in Ids(steps)
    ensures i < |steps| && steps[i].id == x
    ensures forall j :: i < j < |steps| ==> steps[j].id != x
  {
    var n := |steps| - 1;
    if steps[n].id == x then n
    else
      IdsSnoc(steps, n);
      assert steps[..n + 1] == steps;
      LastIndex(steps[..n], x)
  }

  /**
   * A JavaScript `Map<string, number>`: `count` holds the entries and
   * `order` the keys in the order they were first set.
   */
  datatype DependencyMap = DependencyMap(order: seq<StepId>, count: map<StepId, int>)
  {
    ghost predicate Valid()
    {
      Distinct(order) && forall k :: k in count <==> k in order
    }

    /** `Map.prototype.set`: an existing key keeps its place, a new key goes last. */
    function Set(k: StepId, v: int): (m: DependencyMap)
      requires Valid()
      ensures m.Valid()
      ensures m.count.Keys == count.Keys + {k} && m.count[k] == v
      ensures forall j :: j in count && j != k ==> m.count[j] == count[j]
      ensures k in count ==> m.order == order
      ensures k !in count ==> m.order == order + [k]
    {
      DependencyMap(if k in count then order else order + [k], count[k := v])
    }
  }

  /** The initial workflow state: every declared id WAITING (the `reduce` fold). */
  function InitWorkflowState(steps: seq<Step>): (state: WorkflowState)
    ensures state.Keys == Ids(steps)
    ensures forall x :: x in state ==> state[x] == Waiting
  {
    if steps == [] then map[]
    else
      var n := |steps| - 1;
      IdsSnoc(steps, n);
      assert steps[..n + 1] == steps;
      InitWorkflowState(steps[..n])[steps[n].id := Waiting]
  }

  /** What the graph builder's loop adds for record `i`. */
  lemma PrefixSnoc(steps: seq<Step>, i: nat)
    requires i < |steps|
    ensures Ids(steps[..i + 1]) == Ids(steps[..i]) + {steps[i].id}
    ensures Touches(steps[..i + 1]) == Touches(steps[..i]) + [steps[i].id] + steps[i].next
    ensures AllSuccessors(steps[..i + 1]) == AllSuccessors(steps[..i]) + steps[i].next
    ensures forall x :: x in Ids(steps[..i + 1]) ==>
      LastIndex(steps[..i + 1], x) == if x == steps[i].id then i else LastIndex(steps[..i], x)
  {
    IdsSnoc(steps, i);
    var p := steps[..i + 1];
    assert p[..i] == steps[..i];
    forall x | x in Ids(p)
      ensures LastIndex(p, x) == if x == steps[i].id then i else LastIndex(steps[..i], x)
    {
      assert p[i] == steps[i];
    }
  }

  /**
   * `stepMap` maps every declared id to the `next` list of the last record
   * that declares it.
   */
  ghost predicate IsSuccessorMap(stepMap: map<StepId, seq<StepId>>, steps: seq<Step>)
  {
    && stepMap.Keys == Ids(steps)
    && forall x :: x in stepMap ==> stepMap[x] == steps[LastIndex(steps, x)].next
  }

  /** One `stepMap.set(step.id, step.next)`. */
  lemma SuccessorMapSnoc(stepMap: map<StepId, seq<StepId>>, steps: seq<Step>, i: nat)
    requires i < |steps| && IsSuccessorMap(stepMap, steps[..i])
    ensures IsSuccessorMap(stepMap[steps[i].id := steps[i].next], steps[..i + 1])
  {
    PrefixSnoc(steps, i);
  }

  /**
   * Builds the successor map (the last record of an id wins) and the
   * in-degree map (every occurrence of an id in a `next` list counts once).
   */
  method InitMappings(steps: seq<Step>) returns (stepMap: map<StepId, seq<StepId>>, dependencyMap: DependencyMap)
    ensures IsSuccessorMap(stepMap, steps)
    ensures dependencyMap.Valid()
    ensures dependencyMap.order == Dedup(Touches(steps))
    ensures dependencyMap.count.Keys == AllIds(steps)
    ensures forall y :: y in dependencyMap.count ==> dependencyMap.count[y] == multiset(AllSuccessors(steps))[y]
  {
    stepMap := map[];
    dependencyMap := DependencyMap([], map[]);
    for i := 0 to |steps|
      invariant IsSuccessorMap(stepMap, steps[..i])
      invariant Counts(dependencyMap, Touches(steps[..i]), AllSuccessors(steps[..i]))
    {
      var step := steps[i];
      PrefixSnoc(steps, i);
      SuccessorMapSnoc(stepMap, steps, i);
      stepMap := stepMap[step.id := step.next];
      CountId(dependencyMap, Touches(steps[..i]), AllSuccessors(steps[..i]), step.id);
      if step.id !in dependencyMap.count {
        dependencyMap := dependencyMap.Set(step.id, 0);
      }
      dependencyMap := CountSuccessors(dependencyMap, step.next, Touches(steps[..i]) + [step.id], AllSuccessors(steps[..i]));
    }
    assert steps[..|steps|] == steps;
  }

  /**
   * The in-degree map after the graph builder has seen the identifiers in
   * `seen` (in that order) and the successor occurrences in `counted`.
   */
  ghost predicate Counts(dependencyMap: DependencyMap, seen: seq<StepId>, counted: seq<StepId>)
  {
    && dependencyMap.Valid()
    && dependencyMap.order == Dedup(seen)
    && Covered(counted, seen)
    && Tallies(dependencyMap.count, counted)
  }

  ghost predicate Covered(counted: seq<StepId>, seen: seq<StepId>)
  {
    forall y :: y in counted ==> y in seen
  }

  /** Every key's value is the number of its occurrences in `counted`. */
  ghost predicate Tallies(count: map<StepId, int>, counted: seq<StepId>)
  {
    forall y :: y in count ==> count[y] == multiset(counted)[y]
  }

  lemma DedupSnoc(s: seq<StepId>, x: StepId)
    ensures Dedup(s + [x]) == if x in s then Dedup(s) else Dedup(s) + [x]
  {
    assert (s + [x])[..|s|] == s;
  }

  /** Setting a key keeps the key order in step with `Dedup`. */
  lemma OrderSnoc(dependencyMap: DependencyMap, seen: seq<StepId>, x: StepId, v: int)
    requires dependencyMap.Valid() && dependencyMap.order == Dedup(seen) && forall y :: y in dependencyMap.count <==> y in seen
    ensures dependencyMap.Set(x, v).order == Dedup(seen + [x])
  {
    DedupSnoc(seen, x);
  }

  /** A new key with value 0 keeps the tallies when it does not occur yet. */
  lemma TallyNew(count: map<StepId, int>, counted: seq<StepId>, x: StepId)
    requires Tallies(count, counted) && x !in counted
    ensures Tallies(count[x := 0], counted)
  {
  }

  /** Adding one to the value of `x` tallies one more occurrence of `x`. */
  lemma TallyOne(count: map<StepId, int>, counted: seq<StepId>, x: StepId)
    requires Tallies(count, counted) && (x !in count ==> x !in counted)
    ensures Tallies(count[x := (if x in count then count[x] else 0) + 1], counted + [x])
  {
    assert multiset(counted + [x]) == multiset(counted) + multiset{x};
  }

  /** One `if (!dependencyMap.has(step.id)) dependencyMap.set(step.id, 0)`. */
  lemma CountId(dependencyMap: DependencyMap, seen: seq<StepId>, counted: seq<StepId>, x: StepId)
    requires Counts(dependencyMap, seen, counted)
    ensures Counts(if x in dependencyMap.count then dependencyMap else dependencyMap.Set(x, 0), seen + [x], counted)
  {
    assert forall y :: y in dependencyMap.count <==> y in seen;
    OrderSnoc(dependencyMap, seen, x, 0);
    if x in dependencyMap.count {
      DedupSnoc(seen, x);
    } else {
      TallyNew(dependencyMap.count, counted, x);
    }
  }

  /** One `dependencyMap.set(nextStepId, (dependencyMap.get(nextStepId) || 0) + 1)`. */
  lemma CountOne(dependencyMap: DependencyMap, seen: seq<StepId>, counted: seq<StepId>, x: StepId)
    requires Counts(dependencyMap, seen, counted)
    ensures Counts(dependencyMap.Set(x, (if x in dependencyMap.count then dependencyMap.count[x] else 0) + 1), seen + [x], counted + [x])
  {
    assert forall y :: y in dependencyMap.count <==> y in seen;
    OrderSnoc(dependencyMap, seen, x, (if x in dependencyMap.count then dependencyMap.count[x] else 0) + 1);
    TallyOne(dependencyMap.count, counted, x);
  }

  /**
   * The inner loop of the graph builder: each successor's count goes up by
   * one, a new key starting from 0.
   */
  method CountSuccessors(dependencyMap: DependencyMap, next: seq<StepId>, ghost seen: seq<StepId>, ghost counted: seq<StepId>)
    returns (updated: DependencyMap)
    requires Counts(dependencyMap, seen, counted)
    ensures Counts(updated, seen + next, counted + next)
  {
    updated := dependencyMap;
    assert seen + next[..0] == seen && counted + next[..0] == counted;
    for j := 0 to |next|
      invariant Counts(updated, seen + next[..j], counted + next[..j])
    {
      var nextId := next[j];
      CountNext(updated, next, seen, counted, j);
      var current := if nextId in updated.count then updated.count[nextId] else 0;
      updated := updated.Set(nextId, current + 1);
    }
    SnocSlice(seen, next, |next|);
    SnocSlice(counted, next, |next|);
  }

  /** One iteration of the inner loop of the graph builder. */
  lemma CountNext(dependencyMap: DependencyMap, next: seq<StepId>, seen: seq<StepId>, counted: seq<StepId>, j: nat)
    requires j < |next| && Counts(dependencyMap, seen + next[..j], counted + next[..j])
    ensures Counts(dependencyMap.Set(next[j], (if next[j] in dependencyMap.count then dependencyMap.count[next[j]] else 0) + 1),
                   seen + next[..j + 1], counted + next[..j + 1])
  {
    CountOne(dependencyMap, seen + next[..j], counted + next[..j], next[j]);
    SnocSlice(seen, next, j);
    SnocSlice(counted, next, j);
  }

  lemma SnocSlice(s: seq<StepId>, t: seq<StepId>, j: nat)
    requires j <= |t|
    ensures j < |t| ==> s + t[..j + 1] == (s + t[..j]) + [t[j]]
    ensures j == |t| ==> s + t[..j] == s + t
  {
    if j < |t| { assert t[..j + 1] == t[..j] + [t[j]]; }
    else { assert t[..j] == t; }
  }

  /** The zero-in-degree keys of a map, in the map's key order. */
  function ZeroInDegree(order: seq<StepId>, count: map<StepId, int>): seq<StepId>
  {
    if order == [] then []
    else
      var k := order[|order| - 1];
      ZeroInDegree(order[..|order| - 1], count) + if k in count && count[k] == 0 then [k] else []
  }

  /** Seeds the ready queue with every key whose in-degree is exactly 0. */
  method InitExecutionQueue(dependencyMap: DependencyMap) returns (queue: seq<StepId>)
    requires dependencyMap.Valid()
    ensures queue == ZeroInDegree(dependencyMap.order, dependencyMap.count)
    ensures Distinct(queue)
    ensures forall x :: x in queue <==> x in dependencyMap.count && dependencyMap.count[x] == 0
  {
    var order, count := dependencyMap.order, dependencyMap.count;
    queue := [];
    for i := 0 to |order|
      invariant queue == ZeroInDegree(order[..i], count)
      invariant Distinct(queue)
      invariant forall x :: x in queue <==> x in order[..i] && count[x] == 0
    {
      var stepId := order[i];
      assert order[..i + 1][..i] == order[..i];
      if count[stepId] == 0 {
        queue := queue + [stepId];
      }
    }
    assert order[..|order|] == order;
  }
}
