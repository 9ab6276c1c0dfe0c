/** Every field of every row that a finished run leaves behind, from the answers of the executors alone. */
module RowLaws {
  import opened Common
  import opened Definitions
  import opened Status
  import opened Engine
  import opened RunProperties
  import opened RunTheorems
  import opened RunLaws

  /** The statuses of a step after k failed attempts. */
  function Failures(k: nat): (trail: seq<StepStatus>)
    ensures trail != []
  {
    if k == 0 then [Pending] else Failures(k - 1) + [Queued, Running, Failed]
  }

  /** The row of a step whose first k attempts have failed, the last one with this error. */
  ghost predicate FailedSoFar(row: StepRow, k: nat, error: Option<Fault>) {
    && row.trail == Failures(k) && row.status == (if k == 0 then Pending else Failed)
    && row.output == None && row.error == error
  }

  /** The error that the k-th attempt leaves, if there was one. */
  ghost function ErrorOf(exec: Oracle, def: StepDef, ctx: Context, k: nat): Option<Fault> {
    if k == 0 || exec(def, k, ctx).outcome.Success? then None else Some(exec(def, k, ctx).outcome.fault)
  }

  ghost predicate CompletedRow(exec: Oracle, def: StepDef, ctx: Context, row: StepRow) {
    && row.status == Completed && row.attempt >= 1 && exec(def, row.attempt, ctx).outcome.Success?
    && row.output == Some(exec(def, row.attempt, ctx).outcome.output)
    && row.error == ErrorOf(exec, def, ctx, row.attempt - 1)
    && row.trail == Failures(row.attempt - 1) + [Queued, Running, Completed]
  }

  ghost predicate FailedRow(exec: Oracle, def: StepDef, ctx: Context, row: StepRow) {
    && row.attempt >= 1 && exec(def, row.attempt, ctx).outcome.Failure?
    && FailedSoFar(row, row.attempt, Some(exec(def, row.attempt, ctx).outcome.fault))
  }

  /** What one attempt makes of the row. */
  lemma AttemptRow(exec: Oracle, def: StepDef, ctx: Context, row: StepRow, from: nat)
    requires FailedSoFar(row, from, ErrorOf(exec, def, ctx, from))
    ensures var begun, outcome := Begin(row, from + 1), exec(def, from + 1, ctx).outcome;
      if outcome.Success? then CompletedRow(exec, def, ctx, Move(begun, Completed).(output := Some(outcome.output)))
      else
        var failed := Move(begun, Failed).(error := Some(outcome.fault));
        FailedRow(exec, def, ctx, failed) && FailedSoFar(failed, from + 1, ErrorOf(exec, def, ctx, from + 1))
  {
    assert Failures(from) + [Queued] + [Running] + [Completed] == Failures(from) + [Queued, Running, Completed];
    assert Failures(from) + [Queued] + [Running] + [Failed] == Failures(from + 1);
  }

  lemma {:induction false} TriedRow(exec: Oracle, def: StepDef, pos: nat, ctx: Context, row: StepRow, from: nat)
    requires from < row.maxAttempts && FailedSoFar(row, from, ErrorOf(exec, def, ctx, from))
    ensures var t := TryFrom(exec, def, pos, ctx, row, from);
      if t.ok then CompletedRow(exec, def, ctx, t.row) else FailedRow(exec, def, ctx, t.row)
    decreases row.maxAttempts - from
  {
    hide FailedSoFar, CompletedRow, FailedRow, ErrorOf;
    AttemptRow(exec, def, ctx, row, from);
    var outcome := exec(def, from + 1, ctx).outcome;
    if outcome.Failure? {
      var failed := Move(Begin(row, from + 1), Failed).(error := Some(outcome.fault));
      if from + 1 < row.maxAttempts {
        TriedRow(exec, def, pos, ctx, failed, from + 1);
      }
    }
  }

  /** Skipped: ruled out before its first attempt. */
  ghost predicate SkippedRow(row: StepRow) {
    && row.status == Skipped && row.trail == [Pending, Skipped]
    && row.output == None && row.error == None && row.attempt == 1
  }

  /**
   Main theorem: a processed step is skipped with nothing else changed, or completed with the output of its
   first successful attempt, or has failed with the error of its last one; the row keeps the error of the
   attempt before a success, and the statuses list every attempt made.
   */
  lemma RowOfStep(exec: Oracle, plan: Plan, base: Context, r: RunState, done: nat, j: nat)
    requires ValidPlan(plan) && Ended(exec, plan, base, r, done) && j < done
    ensures plan.order[j] in r.rows && plan.order[j] in plan.defs
    ensures var row, def := r.rows[plan.order[j]], plan.defs[plan.order[j]];
      var ctx := base.(steps := OutputsBefore(plan.order, r.rows, j));
      && row.maxAttempts == (if def.retry == None then 3 else def.retry.value)
      && (SkippedRow(row) || CompletedRow(exec, def, ctx, row) || (FailedRow(exec, def, ctx, row) && row.attempt == row.maxAttempts))
  {
    OrderInDefs(plan, j);
    assert ExplainedAt(exec, plan, base, r.rows, j);
    var n := plan.order[j];
    var ctx := base.(steps := OutputsBefore(plan.order, r.rows, j));
    var row0 := InitialRow(plan.defs[n]);
    TriedRow(exec, plan.defs[n], j, ctx, row0, 0);
    RetryStopsAtFirstSuccess(exec, plan.defs[n], j, ctx, row0, 0);
  }
}
