/** What every run does, for every behaviour of the step executors. */
module RunProperties {
  import opened Common
  import opened Definitions
  import opened Status
  import opened Engine

  // ---- The retry loop ----

  lemma OrderInDefs(plan: Plan, j: nat)
    requires ValidPlan(plan) && j < |plan.order|
    ensures plan.order[j] in plan.defs
  {
    assert plan.order[j] in Elems(plan.order);
  }

  ghost predicate TrailOk(row: StepRow) {
    row.trail != [] && row.trail[|row.trail|-1] == row.status && StepPath(row.trail)
  }

  lemma MoveKeepsTrail(row: StepRow, s: StepStatus)
    requires TrailOk(row) && StepAllowed(row.status, s)
    ensures TrailOk(Move(row, s))
  {
    StepPathGrows(row.trail, s);
  }

  lemma BeginKeepsTrail(row: StepRow, attempt: nat)
    requires TrailOk(row) && (row.status.Pending? || row.status.Failed?)
    ensures TrailOk(Begin(row, attempt)) && Begin(row, attempt).status == Running
  {
    var r := row.(attempt := attempt);
    MoveKeepsTrail(r, Queued);
    MoveKeepsTrail(Move(r, Queued), Running);
  }

  ghost predicate Succeeds(exec: Oracle, def: StepDef, ctx: Context, a: nat) {
    exec(def, a, ctx).outcome.Success?
  }

  /** The log of attempts from+1 .. to of one step. */
  ghost function Attempted(pos: nat, step: Id, from: nat, to: nat, seen: map<Id, Output>): seq<Call>
    requires from <= to
  {
    seq(to - from, k requires 0 <= k < to - from => Call(pos, step, from + 1 + k, seen))
  }

  lemma AttemptedOneMore(pos: nat, step: Id, from: nat, to: nat, seen: map<Id, Output>)
    ensures from < to ==>
      [Call(pos, step, from + 1, seen)] + Attempted(pos, step, from + 1, to, seen) == Attempted(pos, step, from, to, seen)
  {
  }

  /**
   The loop stops at the first attempt that succeeds, or at the last allowed one; the stored attempt
   number is the number of calls made.
   */
  lemma {:induction false} RetryStopsAtFirstSuccess(exec: Oracle, def: StepDef, pos: nat, ctx: Context, row: StepRow, from: nat)
    requires from < row.maxAttempts
    ensures var t := TryFrom(exec, def, pos, ctx, row, from);
      && from < t.row.attempt <= row.maxAttempts == t.row.maxAttempts
      && (forall a :: from < a < t.row.attempt ==> !Succeeds(exec, def, ctx, a))
      && (t.ok <==> Succeeds(exec, def, ctx, t.row.attempt))
      && (!t.ok ==> t.row.attempt == row.maxAttempts && t.row.status == Failed)
      && (t.ok ==> t.row.status == Completed && t.row.output == Some(exec(def, t.row.attempt, ctx).outcome.output))
      && t.calls == Attempted(pos, def.id, from, t.row.attempt, ctx.steps)
    decreases row.maxAttempts - from
  {
    var a := from + 1;
    var reply := exec(def, a, ctx);
    if reply.outcome.Failure? {
      var next := Move(Begin(row, a), Failed).(error := Some(reply.outcome.fault));
      var rest := TryFrom(exec, def, pos, ctx, next, a);
      if a < row.maxAttempts {
        RetryStopsAtFirstSuccess(exec, def, pos, ctx, next, a);
      }
      AttemptedOneMore(pos, def.id, from, rest.row.attempt, ctx.steps);
    }
  }

  /** The error column keeps the fault of the last failed attempt, also on a step that completes later. */
  lemma {:induction false} RetryKeepsLastError(exec: Oracle, def: StepDef, pos: nat, ctx: Context, row: StepRow, from: nat)
    requires from < row.maxAttempts
    ensures var t := TryFrom(exec, def, pos, ctx, row, from);
      var lastFailed := if t.ok then t.row.attempt - 1 else t.row.attempt;
      if lastFailed <= from then t.row.error == row.error
      else exec(def, lastFailed, ctx).outcome.Failure? && t.row.error == Some(exec(def, lastFailed, ctx).outcome.fault)
    decreases row.maxAttempts - from
  {
    RetryStopsAtFirstSuccess(exec, def, pos, ctx, row, from);
    var a := from + 1;
    var reply := exec(def, a, ctx);
    if reply.outcome.Failure? && a < row.maxAttempts {
      var next := Move(Begin(row, a), Failed).(error := Some(reply.outcome.fault));
      RetryStopsAtFirstSuccess(exec, def, pos, ctx, next, a);
      RetryKeepsLastError(exec, def, pos, ctx, next, a);
    }
  }

  /** Every status the loop writes follows the step table. */
  lemma {:induction false} RetryFollowsTable(exec: Oracle, def: StepDef, pos: nat, ctx: Context, row: StepRow, from: nat)
    requires TrailOk(row) && (row.status.Pending? || row.status.Failed?)
    ensures TrailOk(TryFrom(exec, def, pos, ctx, row, from).row)
    decreases row.maxAttempts - from
  {
    if from < row.maxAttempts {
      var a := from + 1;
      var started := Begin(row, a);
      BeginKeepsTrail(row, a);
      match exec(def, a, ctx).outcome {
        case Success(output) =>
          MoveKeepsTrail(started, Completed);
        case Failure(fault) =>
          MoveKeepsTrail(started, Failed);
          RetryFollowsTable(exec, def, pos, ctx, Move(started, Failed).(error := Some(fault)), a);
      }
    }
  }

  // ---- The main loop ----

  /** Outputs of the completed steps among the first i of the order. */
  ghost function OutputsBefore(order: seq<Id>, rows: map<Id, StepRow>, i: nat): map<Id, Output>
    requires i <= |order|
  {
    map n | n in order[..i] && n in rows && rows[n].status.Completed? && rows[n].output.Some? :: rows[n].output.value
  }

  /** c is a condition that completed among the first i steps and whose non-taken branch lists n. */
  ghost predicate RulesOut(plan: Plan, rows: map<Id, StepRow>, i: nat, c: Id, n: Id)
    requires i <= |plan.order|
  {
    && c in plan.order[..i] && c in plan.defs && c in rows
    && rows[c].status.Completed? && rows[c].output.Some?
    && n in NewlySkipped(plan.defs[c], rows[c].output.value)
  }

  ghost predicate RuledOut(plan: Plan, rows: map<Id, StepRow>, i: nat, n: Id)
    requires i <= |plan.order|
  {
    exists c :: RulesOut(plan, rows, i, c, n)
  }

  /** The executor calls of the first i steps, in order: one block of attempts per executed step. */
  ghost function CallsBefore(plan: Plan, rows: map<Id, StepRow>, i: nat): seq<Call>
    requires ValidPlan(plan) && i <= |plan.order| && rows.Keys == plan.defs.Keys
  {
    if i == 0 then []
    else
      var n := plan.order[i-1];
      assert n in Elems(plan.order);
      CallsBefore(plan, rows, i - 1) +
      if rows[n].status.Skipped? then []
      else Attempted(i - 1, n, 0, rows[n].attempt, OutputsBefore(plan.order, rows, i - 1))
  }

  /** Rows that agree on the first i steps give the same outputs, exclusions and calls. */
  lemma PrefixDetermines(plan: Plan, a: map<Id, StepRow>, b: map<Id, StepRow>, i: nat)
    requires ValidPlan(plan) && i <= |plan.order| && a.Keys == plan.defs.Keys && b.Keys == plan.defs.Keys
    requires forall n :: n in plan.order[..i] ==> n in a && n in b && a[n] == b[n]
    ensures OutputsBefore(plan.order, a, i) == OutputsBefore(plan.order, b, i)
    ensures forall n :: RuledOut(plan, a, i, n) <==> RuledOut(plan, b, i, n)
    ensures CallsBefore(plan, a, i) == CallsBefore(plan, b, i)
  {
    PrefixDeterminesCalls(plan, a, b, i);
    forall n ensures RuledOut(plan, a, i, n) <==> RuledOut(plan, b, i, n) {
      if RuledOut(plan, a, i, n) {
        var c :| RulesOut(plan, a, i, c, n);
        assert RulesOut(plan, b, i, c, n);
      }
      if RuledOut(plan, b, i, n) {
        var c :| RulesOut(plan, b, i, c, n);
        assert RulesOut(plan, a, i, c, n);
      }
    }
  }

  lemma OutputsAgree(order: seq<Id>, a: map<Id, StepRow>, b: map<Id, StepRow>, i: nat)
    requires i <= |order|
    requires forall n :: n in order[..i] ==> n in a && n in b && a[n] == b[n]
    ensures OutputsBefore(order, a, i) == OutputsBefore(order, b, i)
  {
  }

  lemma {:induction false} PrefixDeterminesCalls(plan: Plan, a: map<Id, StepRow>, b: map<Id, StepRow>, i: nat)
    requires ValidPlan(plan) && i <= |plan.order| && a.Keys == plan.defs.Keys && b.Keys == plan.defs.Keys
    requires forall n :: n in plan.order[..i] ==> n in a && n in b && a[n] == b[n]
    ensures CallsBefore(plan, a, i) == CallsBefore(plan, b, i)
  {
    if i > 0 {
      assert plan.order[..i] == plan.order[..i-1] + [plan.order[i-1]];
      assert plan.order[i-1] in plan.order[..i];
      PrefixDeterminesCalls(plan, a, b, i - 1);
      OutputsAgree(plan.order, a, b, i - 1);
    }
  }

  /**
   The row that step i of the order must end with, given the rows before it: skipped when an earlier
   completed condition ruled it out, otherwise the result of the retry loop on exactly the outputs of
   the steps completed before it.
   */
  ghost function RowAt(exec: Oracle, plan: Plan, base: Context, rows: map<Id, StepRow>, i: nat): StepRow
    requires ValidPlan(plan) && i < |plan.order|
  {
    var n := plan.order[i];
    assert n in Elems(plan.order);
    if RuledOut(plan, rows, i, n) then Move(InitialRow(plan.defs[n]), Skipped)
    else TryFrom(exec, plan.defs[n], i, base.(steps := OutputsBefore(plan.order, rows, i)), InitialRow(plan.defs[n]), 0).row
  }

  ghost predicate Settled(row: StepRow) {
    row.status.Skipped? || (row.status.Completed? && row.output.Some?)
  }

  ghost predicate SettledAt(exec: Oracle, plan: Plan, base: Context, rows: map<Id, StepRow>, i: nat)
    requires ValidPlan(plan) && i < |plan.order|
  {
    var n := plan.order[i];
    n in rows && Settled(rows[n]) && rows[n] == RowAt(exec, plan, base, rows, i)
  }

  ghost predicate Untouched(plan: Plan, rows: map<Id, StepRow>, i: nat)
    requires i <= |plan.order|
  {
    forall n :: n in plan.order[i..] ==> n in rows && n in plan.defs && rows[n] == InitialRow(plan.defs[n])
  }

  ghost predicate InProgress(e: ExecRow) {
    e.status == ExecRunning && e.trail == [ExecPending, ExecRunning] && e.failedStep == None
  }

  /** The loop invariant of the run after i rounds without failure. */
  ghost predicate Progress(exec: Oracle, plan: Plan, i: nat, st: RunState)
    requires ValidPlan(plan) && i <= |plan.order|
  {
    && st.rows.Keys == plan.defs.Keys
    && (forall j :: 0 <= j < i ==> SettledAt(exec, plan, st.exec.context, st.rows, j))
    && Untouched(plan, st.rows, i)
    && InProgress(st.exec)
    && st.exec.context.steps == OutputsBefore(plan.order, st.rows, i)
    && (forall n :: n in st.skipped <==> RuledOut(plan, st.rows, i, n))
    && st.calls == CallsBefore(plan, st.rows, i)
  }

  lemma OrderSplits(order: seq<Id>, i: nat)
    requires Distinct(order) && i < |order|
    ensures order[..i+1] == order[..i] + [order[i]]
    ensures order[i..] == [order[i]] + order[i+1..]
    ensures order[i] !in order[..i] && order[i] !in order[i+1..]
    ensures order[i] in order && order[i] in order[..i+1]
  {
  }

  lemma AgreeBefore(plan: Plan, rows: map<Id, StepRow>, i: nat, j: nat)
    requires ValidPlan(plan) && j <= i < |plan.order| && rows.Keys == plan.defs.Keys
    ensures forall n :: n in plan.order[..j] ==> n in rows && n != plan.order[i]
  {
    forall n | n in plan.order[..j] ensures n in rows && n != plan.order[i] {
      assert n in Elems(plan.order);
    }
  }

  /** Writing the row of step i changes nothing that the first j <= i steps determine. */
  lemma WriteKeepsPrefix(plan: Plan, rows: map<Id, StepRow>, i: nat, j: nat, row: StepRow)
    requires ValidPlan(plan) && j <= i < |plan.order| && rows.Keys == plan.defs.Keys
    ensures var after := rows[plan.order[i] := row];
      && after.Keys == plan.defs.Keys
      && OutputsBefore(plan.order, rows, j) == OutputsBefore(plan.order, after, j)
      && (forall n :: RuledOut(plan, rows, j, n) <==> RuledOut(plan, after, j, n))
      && CallsBefore(plan, rows, j) == CallsBefore(plan, after, j)
  {
    OrderSplits(plan.order, i);
    assert plan.order[i] in Elems(plan.order);
    AgreeBefore(plan, rows, i, j);
    PrefixDetermines(plan, rows, rows[plan.order[i] := row], j);
  }

  lemma WriteKeepsSettled(exec: Oracle, plan: Plan, base: Context, base': Context, rows: map<Id, StepRow>, i: nat, j: nat, row: StepRow)
    requires ValidPlan(plan) && j < i < |plan.order| && rows.Keys == plan.defs.Keys
    requires SettledAt(exec, plan, base, rows, j)
    requires base'.(steps := map[]) == base.(steps := map[])
    ensures SettledAt(exec, plan, base', rows[plan.order[i] := row], j)
  {
    WriteKeepsPrefix(plan, rows, i, j, row);
    assert plan.order[j] != plan.order[i];
    var o := OutputsBefore(plan.order, rows, j);
    assert base.(steps := o) == base.(steps := map[]).(steps := o);
    assert base'.(steps := o) == base'.(steps := map[]).(steps := o);
  }

  /** The outputs visible after round i: one more when the step completed. */
  lemma OutputsGrow(plan: Plan, rows: map<Id, StepRow>, i: nat, row: StepRow)
    requires ValidPlan(plan) && i < |plan.order| && rows.Keys == plan.defs.Keys && Settled(row)
    ensures var n := plan.order[i];
      OutputsBefore(plan.order, rows[n := row], i + 1) ==
      if row.status.Skipped? then OutputsBefore(plan.order, rows, i)
      else OutputsBefore(plan.order, rows, i)[n := row.output.value]
  {
    OrderSplits(plan.order, i);
    var n := plan.order[i];
    forall m ensures m in plan.order[..i+1] <==> m in plan.order[..i] || m == n {
    }
  }

  lemma ExclusionsGrow(plan: Plan, rows: map<Id, StepRow>, i: nat, row: StepRow, m: Id)
    requires ValidPlan(plan) && i < |plan.order| && rows.Keys == plan.defs.Keys && Settled(row)
    ensures var n := plan.order[i];
      RuledOut(plan, rows[n := row], i + 1, m) <==>
        RuledOut(plan, rows, i, m) ||
        (row.status.Completed? && n in plan.defs && m in NewlySkipped(plan.defs[n], row.output.value))
  {
    var n := plan.order[i];
    var after := rows[n := row];
    OrderSplits(plan.order, i);
    assert n in Elems(plan.order);
    if RuledOut(plan, after, i + 1, m) {
      var c :| RulesOut(plan, after, i + 1, c, m);
      if c != n {
        assert RulesOut(plan, rows, i, c, m);
      }
    }
    if RuledOut(plan, rows, i, m) {
      var c :| RulesOut(plan, rows, i, c, m);
      assert RulesOut(plan, after, i + 1, c, m);
    }
    if row.status.Completed? && m in NewlySkipped(plan.defs[n], row.output.value) {
      assert RulesOut(plan, after, i + 1, n, m);
    }
  }

  lemma CallsGrow(plan: Plan, rows: map<Id, StepRow>, i: nat, row: StepRow)
    requires ValidPlan(plan) && i < |plan.order| && rows.Keys == plan.defs.Keys
    ensures var n := plan.order[i];
      rows[n := row].Keys == plan.defs.Keys &&
      CallsBefore(plan, rows[n := row], i + 1) == CallsBefore(plan, rows, i) +
        if row.status.Skipped? then [] else Attempted(i, n, 0, row.attempt, OutputsBefore(plan.order, rows, i))
  {
    WriteKeepsPrefix(plan, rows, i, i, row);
  }

  lemma UntouchedShrinks(plan: Plan, rows: map<Id, StepRow>, i: nat, row: StepRow)
    requires ValidPlan(plan) && i < |plan.order| && Untouched(plan, rows, i)
    ensures Untouched(plan, rows[plan.order[i] := row], i + 1)
    ensures plan.order[i] in rows && rows[plan.order[i]] == InitialRow(plan.defs[plan.order[i]])
  {
    OrderSplits(plan.order, i);
    forall n | n in plan.order[i+1..] ensures n in plan.order[i..] && n != plan.order[i] {
    }
    assert plan.order[i] in plan.order[i..];
  }

  /** Round i reads exactly the row, exclusions and outputs that RowAt describes. */
  lemma RoundComputesRowAt(exec: Oracle, plan: Plan, i: nat, st: RunState)
    requires ValidPlan(plan) && i < |plan.order| && Progress(exec, plan, i, st)
    ensures var n := plan.order[i];
      Process(exec, plan, i, st).rows == st.rows[n := RowAt(exec, plan, st.exec.context, st.rows, i)]
  {
    UntouchedShrinks(plan, st.rows, i, st.rows[plan.order[i]]);
    var c := st.exec.context;
    assert c.(steps := OutputsBefore(plan.order, st.rows, i)) == c;
  }

  lemma RoundKeepsSettled(exec: Oracle, plan: Plan, i: nat, st: RunState)
    requires ValidPlan(plan) && i < |plan.order| && Progress(exec, plan, i, st)
    requires !Process(exec, plan, i, st).exec.status.ExecFailed?
    ensures var r := Process(exec, plan, i, st);
      forall j :: 0 <= j <= i ==> SettledAt(exec, plan, r.exec.context, r.rows, j)
  {
    hide TryFrom, OutputsBefore, RuledOut;
    var r, n := Process(exec, plan, i, st), plan.order[i];
    var row := RowAt(exec, plan, st.exec.context, st.rows, i);
    RoundComputesRowAt(exec, plan, i, st);
    forall j | 0 <= j <= i ensures SettledAt(exec, plan, r.exec.context, r.rows, j) {
      if j < i {
        WriteKeepsSettled(exec, plan, st.exec.context, r.exec.context, st.rows, i, j, row);
      } else {
        WriteKeepsPrefix(plan, st.rows, i, i, row);
        RoundSettlesRow(exec, plan, i, st);
        var o := OutputsBefore(plan.order, st.rows, i);
        assert r.exec.context.(steps := o) == st.exec.context.(steps := o);
      }
    }
  }

  ghost predicate GaveUp(row: StepRow) {
    row.status == Failed && row.attempt == row.maxAttempts
  }

  ghost function FailedExec(e: ExecRow, n: Id): ExecRow {
    e.(status := ExecFailed, failedStep := Some(n), trail := e.trail + [ExecFailed])
  }

  lemma RoundSettlesRow(exec: Oracle, plan: Plan, i: nat, st: RunState)
    requires ValidPlan(plan) && i < |plan.order| && Progress(exec, plan, i, st)
    ensures var r, n := Process(exec, plan, i, st), plan.order[i];
      && (!r.exec.status.ExecFailed? ==> Settled(r.rows[n]) && InProgress(r.exec))
      && (r.exec.status.ExecFailed? ==> GaveUp(r.rows[n]) && r.exec == FailedExec(st.exec, n))
  {
    var n := plan.order[i];
    UntouchedShrinks(plan, st.rows, i, st.rows[n]);
    RetryStopsAtFirstSuccess(exec, plan.defs[n], i, st.exec.context, st.rows[n], 0);
  }

  lemma RoundLogsCalls(exec: Oracle, plan: Plan, i: nat, st: RunState)
    requires ValidPlan(plan) && i < |plan.order| && Progress(exec, plan, i, st)
    ensures var r := Process(exec, plan, i, st);
      r.calls == CallsBefore(plan, r.rows, i + 1)
  {
    var n := plan.order[i];
    var row := RowAt(exec, plan, st.exec.context, st.rows, i);
    RoundComputesRowAt(exec, plan, i, st);
    CallsGrow(plan, st.rows, i, row);
    UntouchedShrinks(plan, st.rows, i, row);
    RetryStopsAtFirstSuccess(exec, plan.defs[n], i, st.exec.context, st.rows[n], 0);
  }

  lemma RoundUpdatesContext(exec: Oracle, plan: Plan, i: nat, st: RunState)
    requires ValidPlan(plan) && i < |plan.order| && Progress(exec, plan, i, st)
    requires !Process(exec, plan, i, st).exec.status.ExecFailed?
    ensures var r := Process(exec, plan, i, st);
      && r.exec.context.steps == OutputsBefore(plan.order, r.rows, i + 1)
      && (forall m :: m in r.skipped <==> RuledOut(plan, r.rows, i + 1, m))
  {
    var r, n := Process(exec, plan, i, st), plan.order[i];
    var row := RowAt(exec, plan, st.exec.context, st.rows, i);
    RoundComputesRowAt(exec, plan, i, st);
    RoundSettlesRow(exec, plan, i, st);
    UntouchedShrinks(plan, st.rows, i, row);
    RetryStopsAtFirstSuccess(exec, plan.defs[n], i, st.exec.context, st.rows[n], 0);
    OutputsGrow(plan, st.rows, i, row);
    forall m ensures m in r.skipped <==> RuledOut(plan, r.rows, i + 1, m) {
      ExclusionsGrow(plan, st.rows, i, row, m);
    }
  }

  lemma RoundKeepsProgress(exec: Oracle, plan: Plan, i: nat, st: RunState)
    requires ValidPlan(plan) && i < |plan.order| && Progress(exec, plan, i, st)
    requires !Process(exec, plan, i, st).exec.status.ExecFailed?
    ensures Progress(exec, plan, i + 1, Process(exec, plan, i, st))
  {
    RoundComputesRowAt(exec, plan, i, st);
    UntouchedShrinks(plan, st.rows, i, RowAt(exec, plan, st.exec.context, st.rows, i));
    RoundSettlesRow(exec, plan, i, st);
    RoundKeepsSettled(exec, plan, i, st);
    RoundLogsCalls(exec, plan, i, st);
    RoundUpdatesContext(exec, plan, i, st);
  }
}
