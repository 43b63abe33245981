/** Entities of the workflow engine: step definitions and per-step states. */
module Types {

  type StepId = string

  /** A step definition: its identifier and the identifiers it unblocks. */
  datatype Step = Step(id: StepId, next: seq<StepId>)

  /** The four statuses of a step, each with the clock fields it carries. */
  datatype StepState =
    | Waiting
    | Running(startClock: int)
    | Completed(startClock: int, finishedClock: int)
    | Failed(startClock: int, finishedClock: int)
  {
    /** The step has left WAITING, i.e. it was dispatched in some tick. */
    predicate IsStarted() { !Waiting? }

    /** The step reached one of the two terminal statuses with clocks. */
    predicate IsSettled() { Completed? || Failed? }
  }

  /** The engine's result: a record from step identifier to its state. */
  type WorkflowState = map<StepId, StepState>

  predicate Distinct(s: seq<StepId>)
  {
    forall i, j :: 0 <= i < j < |s| ==> s[i] != s[j]
  }

  /** True iff `x` has left WAITING in `state`. */
  predicate Started(state: WorkflowState, x: StepId)
  {
    x in state && state[x].IsStarted()
  }
}
