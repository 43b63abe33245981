/**
 * The workflows of the test suite, with their own step ids: what
 * `ExecuteWorkflow` returns for each.
 */
module Suite {
  import opened Types
  import opened Scheduler
  import opened Engine
  import opened Properties

  /** An id that is empty or whose first letter is not 'f' is one the executor completes. */
  lemma Ordinary(id: StepId)
    requires |id| == 0 || id[0] != 'f'
    ensures SimulateStepExecution(id)
  {
    FailsIffPrefixed(id);
  }

  /** An id of at least four letters starting with "fail" is one the executor fails. */
  lemma Failing(id: StepId)
    requires |id| >= 4 && id[..4] == "fail"
    ensures id != "" && !SimulateStepExecution(id)
  {
    FailsIffPrefixed(id);
  }

  lemma BranchingIds()
    ensures SimulateStepExecution("start") && SimulateStepExecution("branch1") && SimulateStepExecution("branch2") && SimulateStepExecution("converge")
    ensures Distinct(["start", "branch1", "branch2", "converge"])
  {
    Ordinary("start");
    Ordinary("branch1");
    Ordinary("branch2");
    Ordinary("converge");
  }

  lemma DiamondIds()
    ensures SimulateStepExecution("A") && SimulateStepExecution("B") && SimulateStepExecution("C") && SimulateStepExecution("D") && SimulateStepExecution("E")
    ensures Distinct(["A", "B", "C", "D", "E"])
  {
    Ordinary("A");
    Ordinary("B");
    Ordinary("C");
    Ordinary("D");
    Ordinary("E");
  }

  lemma IndependentChainsIds()
    ensures SimulateStepExecution("chain1-start") && SimulateStepExecution("chain1-end") && SimulateStepExecution("chain2-start")
    ensures SimulateStepExecution("chain2-middle") && SimulateStepExecution("chain2-end")
    ensures Distinct(["chain1-start", "chain1-end", "chain2-start", "chain2-middle", "chain2-end"])
  {
    Ordinary("chain1-start");
    Ordinary("chain1-end");
    Ordinary("chain2-start");
    Ordinary("chain2-middle");
    Ordinary("chain2-end");
  }

  lemma PartialFailureIds()
    ensures SimulateStepExecution("start") && SimulateStepExecution("good-branch") && "fail-branch" != "" && !SimulateStepExecution("fail-branch")
    ensures Distinct(["start", "good-branch", "fail-branch", "final"])
  {
    Ordinary("start");
    Ordinary("good-branch");
    Failing("fail-branch");
  }

  /** start → middle → end: one step per tick, all COMPLETED. */
  method LinearWorkflow() returns (r: WorkflowState)
    ensures r == map["start" := Completed(0, 1), "middle" := Completed(1, 2), "end" := Completed(2, 3)]
  {
    Ordinary("start");
    Ordinary("middle");
    Ordinary("end");
    r := ExecuteWorkflow(ChainSteps("start", "middle", "end"));
    ChainRunsInOrder("start", "middle", "end", r);
  }

  /** A single step runs in tick 0. */
  method SingleStepWorkflow() returns (r: WorkflowState)
    ensures r == map["only" := Completed(0, 1)]
  {
    Ordinary("only");
    r := ExecuteWorkflow([Step("only", [])]);
    SingleStepRuns("only", r);
  }

  /** start → fail-step → after-fail: the failed step keeps its successor WAITING. */
  method FailureWorkflow() returns (r: WorkflowState)
    ensures r == map["start" := Completed(0, 1), "fail-step" := Failed(1, 2), "after-fail" := Waiting]
  {
    Ordinary("start");
    Failing("fail-step");
    r := ExecuteWorkflow(ChainSteps("start", "fail-step", "after-fail"));
    FailureStopsChain("start", "fail-step", "after-fail", r);
  }

  /** start → [branch1, branch2] → converge. */
  method BranchingWorkflow() returns (r: WorkflowState)
    ensures r == map["start" := Completed(0, 1), "branch1" := Completed(1, 2), "branch2" := Completed(1, 2), "converge" := Completed(2, 3)]
  {
    BranchingIds();
    r := ExecuteWorkflow(BranchSteps("start", "branch1", "branch2", "converge"));
    BranchesJoin("start", "branch1", "branch2", "converge", r);
  }

  /** A → [B, C] → D → E: B and C run in the same tick. */
  method DiamondWorkflow() returns (r: WorkflowState)
    ensures r == map["A" := Completed(0, 1), "B" := Completed(1, 2), "C" := Completed(1, 2), "D" := Completed(2, 3), "E" := Completed(3, 4)]
  {
    DiamondIds();
    r := ExecuteWorkflow(DiamondSteps("A", "B", "C", "D", "E"));
    DiamondRunsBranchesTogether("A", "B", "C", "D", "E", r);
  }

  /** Two independent chains advance side by side. */
  method IndependentChainsWorkflow() returns (r: WorkflowState)
    ensures r == map["chain1-start" := Completed(0, 1), "chain1-end" := Completed(1, 2),
      "chain2-start" := Completed(0, 1), "chain2-middle" := Completed(1, 2), "chain2-end" := Completed(2, 3)]
  {
    IndependentChainsIds();
    r := ExecuteWorkflow(TwoChainSteps("chain1-start", "chain1-end", "chain2-start", "chain2-middle", "chain2-end"));
    IndependentChainsInterleave("chain1-start", "chain1-end", "chain2-start", "chain2-middle", "chain2-end", r);
  }

  /** start → [good-branch, fail-branch] → final: the join stays WAITING. */
  method PartialFailureWorkflow() returns (r: WorkflowState)
    ensures r == map["start" := Completed(0, 1), "good-branch" := Completed(1, 2), "fail-branch" := Failed(1, 2), "final" := Waiting]
  {
    PartialFailureIds();
    r := ExecuteWorkflow(BranchSteps("start", "good-branch", "fail-branch", "final"));
    PartialFailureBlocksJoin("start", "good-branch", "fail-branch", "final", r);
  }

  /** The empty workflow yields the empty state. */
  method EmptyWorkflowRun() returns (r: WorkflowState)
    ensures r == map[]
  {
    r := ExecuteWorkflow([]);
    EmptyWorkflow(r);
  }

  /** Two steps without dependencies both run in tick 0. */
  method OrphanWorkflow() returns (r: WorkflowState)
    ensures r == map["orphan1" := Completed(0, 1), "orphan2" := Completed(0, 1)]
  {
    Ordinary("orphan1");
    Ordinary("orphan2");
    r := ExecuteWorkflow(OrphanSteps("orphan1", "orphan2"));
    OrphansRunTogether("orphan1", "orphan2", r);
  }
}
