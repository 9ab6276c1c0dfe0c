/** The theorems about finished runs, for every plan and every behaviour of the executors. */
module RunTheorems {
  import opened Common
  import opened Status
  import opened Engine
  import opened RunProperties

  ghost function Base(trigger: nat, tenant: Id, depth: nat): Context {
    Context(trigger, map[], depth, tenant)
  }

  ghost predicate SameBase(a: Context, b: Context) {
    a.(steps := map[]) == b.(steps := map[])
  }

  lemma StartIsProgress(exec: Oracle, plan: Plan, trigger: nat, tenant: Id, depth: nat)
    requires ValidPlan(plan)
    ensures Progress(exec, plan, 0, StartState(plan, trigger, tenant, depth))
  {
    var st := StartState(plan, trigger, tenant, depth);
    forall n | n in plan.order[0..] ensures n in st.rows && n in plan.defs && st.rows[n] == InitialRow(plan.defs[n]) {
      assert n in Elems(plan.order);
    }
    forall n ensures !RuledOut(plan, st.rows, 0, n) {
    }
  }

  /** The row of the j-th step is what RowAt says. */
  ghost predicate ExplainedAt(exec: Oracle, plan: Plan, base: Context, rows: map<Id, StepRow>, j: nat)
    requires ValidPlan(plan) && j < |plan.order|
  {
    plan.order[j] in rows && rows[plan.order[j]] == RowAt(exec, plan, base, rows, j)
  }

  /** All rows of the first `done` steps are what RowAt says, the others are untouched, and the log is complete. */
  ghost predicate Explained(exec: Oracle, plan: Plan, base: Context, r: RunState, done: nat)
    requires ValidPlan(plan) && done <= |plan.order|
  {
    && r.rows.Keys == plan.defs.Keys
    && (forall j :: 0 <= j < done ==> ExplainedAt(exec, plan, base, r.rows, j))
    && Untouched(plan, r.rows, done)
    && r.calls == CallsBefore(plan, r.rows, done)
    && r.exec.context == base.(steps := OutputsBefore(plan.order, r.rows, done))
  }

  /** Everything ran: all steps completed or skipped. */
  ghost predicate FinishedWell(plan: Plan, r: RunState)
    requires ValidPlan(plan)
  {
    && r.exec.status == ExecCompleted && r.exec.trail == [ExecPending, ExecRunning, ExecCompleted]
    && r.exec.failedStep == None
    && forall j :: 0 <= j < |plan.order| ==> plan.order[j] in r.rows && Settled(r.rows[plan.order[j]])
  }

  /** Step k used up its attempts: everything before it is settled, everything after it never started. */
  ghost predicate FailedAt(plan: Plan, r: RunState, k: nat)
    requires ValidPlan(plan) && k < |plan.order|
  {
    && r.exec.status == ExecFailed && r.exec.trail == [ExecPending, ExecRunning, ExecFailed]
    && r.exec.failedStep == Some(plan.order[k])
    && (forall j :: 0 <= j < k ==> plan.order[j] in r.rows && Settled(r.rows[plan.order[j]]))
    && plan.order[k] in r.rows && GaveUp(r.rows[plan.order[k]])
    && Untouched(plan, r.rows, k + 1)
  }

  lemma SettledIsExplained(exec: Oracle, plan: Plan, base: Context, rows: map<Id, StepRow>, ctx: Context, j: nat)
    requires ValidPlan(plan) && j < |plan.order| && SameBase(ctx, base) && SettledAt(exec, plan, ctx, rows, j)
    ensures ExplainedAt(exec, plan, base, rows, j)
  {
    var o := OutputsBefore(plan.order, rows, j);
    assert ctx.(steps := o) == ctx.(steps := map[]).(steps := o);
    assert base.(steps := o) == base.(steps := map[]).(steps := o);
  }

  lemma ProgressIsExplained(exec: Oracle, plan: Plan, base: Context, st: RunState, i: nat)
    requires ValidPlan(plan) && i <= |plan.order| && Progress(exec, plan, i, st) && SameBase(st.exec.context, base)
    ensures Explained(exec, plan, base, st, i)
  {
    forall j | 0 <= j < i ensures ExplainedAt(exec, plan, base, st.rows, j) {
      SettledIsExplained(exec, plan, base, st.rows, st.exec.context, j);
    }
    var o := OutputsBefore(plan.order, st.rows, i);
    assert st.exec.context.(steps := o) == st.exec.context.(steps := map[]).(steps := o);
    assert base.(steps := o) == base.(steps := map[]).(steps := o);
  }

  lemma FailedRowsExplained(exec: Oracle, plan: Plan, base: Context, st: RunState, k: nat, j: nat)
    requires ValidPlan(plan) && j <= k < |plan.order| && Progress(exec, plan, k, st) && SameBase(st.exec.context, base)
    ensures ExplainedAt(exec, plan, base, Process(exec, plan, k, st).rows, j)
  {
    var row := RowAt(exec, plan, st.exec.context, st.rows, k);
    RoundComputesRowAt(exec, plan, k, st);
    OrderInDefs(plan, j);
    if j < k {
      WriteKeepsSettled(exec, plan, st.exec.context, base, st.rows, k, j, row);
    } else {
      WriteKeepsPrefix(plan, st.rows, k, k, row);
      var o := OutputsBefore(plan.order, st.rows, k);
      assert st.exec.context.(steps := o) == st.exec.context.(steps := map[]).(steps := o);
      assert base.(steps := o) == base.(steps := map[]).(steps := o);
    }
  }

  lemma FailureIsExplained(exec: Oracle, plan: Plan, base: Context, st: RunState, k: nat)
    requires ValidPlan(plan) && k < |plan.order| && Progress(exec, plan, k, st) && SameBase(st.exec.context, base)
    requires Process(exec, plan, k, st).exec.status.ExecFailed?
    ensures Explained(exec, plan, base, Process(exec, plan, k, st), k + 1)
  {
    var r := Process(exec, plan, k, st);
    var row := RowAt(exec, plan, st.exec.context, st.rows, k);
    RoundComputesRowAt(exec, plan, k, st);
    RoundSettlesRow(exec, plan, k, st);
    RoundLogsCalls(exec, plan, k, st);
    UntouchedShrinks(plan, st.rows, k, row);
    WriteKeepsPrefix(plan, st.rows, k, k, row);
    OrderSplits(plan.order, k);
    forall j | 0 <= j < k + 1 ensures ExplainedAt(exec, plan, base, r.rows, j) {
      FailedRowsExplained(exec, plan, base, st, k, j);
    }
    var o := OutputsBefore(plan.order, st.rows, k);
    assert OutputsBefore(plan.order, r.rows, k + 1) == o;
    assert st.exec.context.(steps := o) == st.exec.context.(steps := map[]).(steps := o);
    assert base.(steps := o) == base.(steps := map[]).(steps := o);
  }

  lemma FailureShape(exec: Oracle, plan: Plan, st: RunState, k: nat)
    requires ValidPlan(plan) && k < |plan.order| && Progress(exec, plan, k, st)
    requires Process(exec, plan, k, st).exec.status.ExecFailed?
    ensures FailedAt(plan, Process(exec, plan, k, st), k)
  {
    var r := Process(exec, plan, k, st);
    var row := RowAt(exec, plan, st.exec.context, st.rows, k);
    RoundComputesRowAt(exec, plan, k, st);
    RoundSettlesRow(exec, plan, k, st);
    UntouchedShrinks(plan, st.rows, k, row);
    OrderInDefs(plan, k);
    forall j | 0 <= j < k ensures plan.order[j] in r.rows && Settled(r.rows[plan.order[j]]) {
      assert SettledAt(exec, plan, st.exec.context, st.rows, j);
    }
  }

  ghost predicate Stopped(exec: Oracle, plan: Plan, base: Context, r: RunState, k: nat)
    requires ValidPlan(plan)
  {
    k < |plan.order| && Explained(exec, plan, base, r, k + 1) && FailedAt(plan, r, k)
  }

  /** Where a run stands after i rounds: still in progress, or stopped at an earlier step. */
  ghost predicate Standing(exec: Oracle, plan: Plan, base: Context, st: RunState, i: nat)
    requires ValidPlan(plan) && i <= |plan.order|
  {
    if st.exec.status.ExecFailed? then exists k: nat :: k < i && Stopped(exec, plan, base, st, k)
    else Progress(exec, plan, i, st) && SameBase(st.exec.context, base)
  }

  lemma RoundKeepsBase(exec: Oracle, plan: Plan, base: Context, st: RunState, i: nat)
    requires ValidPlan(plan) && i < |plan.order| && Progress(exec, plan, i, st) && SameBase(st.exec.context, base)
    ensures SameBase(Process(exec, plan, i, st).exec.context, base)
  {
  }

  lemma RoundKeepsStanding(exec: Oracle, plan: Plan, base: Context, st: RunState, i: nat)
    requires ValidPlan(plan) && i < |plan.order| && Progress(exec, plan, i, st) && SameBase(st.exec.context, base)
    ensures Standing(exec, plan, base, Process(exec, plan, i, st), i + 1)
  {
    if Process(exec, plan, i, st).exec.status.ExecFailed? {
      FailureIsExplained(exec, plan, base, st, i);
      FailureShape(exec, plan, st, i);
      assert Stopped(exec, plan, base, Process(exec, plan, i, st), i);
    } else {
      RoundKeepsProgress(exec, plan, i, st);
      RoundKeepsBase(exec, plan, base, st, i);
    }
  }

  lemma StandsOn(exec: Oracle, plan: Plan, base: Context, st: RunState, i: nat)
    requires ValidPlan(plan) && i < |plan.order| && st.exec.status.ExecFailed? && Standing(exec, plan, base, st, i)
    ensures Standing(exec, plan, base, st, i + 1)
  {
    var k: nat :| k < i && Stopped(exec, plan, base, st, k);
    assert k < i + 1;
  }

  ghost function AllStanding(exec: Oracle, plan: Plan, base: Context, i: nat): iset<RunState>
    requires ValidPlan(plan) && i <= |plan.order|
  {
    iset st: RunState | Standing(exec, plan, base, st, i)
  }

  lemma AdvanceKeepsStanding(exec: Oracle, plan: Plan, base: Context, st: RunState, i: nat)
    requires ValidPlan(plan) && i < |plan.order| && st.rows.Keys == plan.defs.Keys
    requires st in AllStanding(exec, plan, base, i)
    ensures Advance(exec, plan, i, st) in AllStanding(exec, plan, base, i + 1)
  {
    if st.exec.status.ExecFailed? {
      StandsOn(exec, plan, base, st, i);
      IntoStanding(exec, plan, base, st, i + 1);
    } else {
      RoundKeepsStanding(exec, plan, base, st, i);
      IntoStanding(exec, plan, base, Process(exec, plan, i, st), i + 1);
    }
  }

  lemma IntoStanding(exec: Oracle, plan: Plan, base: Context, st: RunState, i: nat)
    requires ValidPlan(plan) && i <= |plan.order| && Standing(exec, plan, base, st, i)
    ensures st in AllStanding(exec, plan, base, i)
  {
  }

  /** After every number of rounds the run is still in progress or stopped at an earlier step. */
  lemma {:induction false} RunStands(exec: Oracle, plan: Plan, base: Context, st0: RunState, i: nat)
    requires ValidPlan(plan) && i <= |plan.order| && st0.rows.Keys == plan.defs.Keys
    requires st0 in AllStanding(exec, plan, base, 0)
    ensures RunTo(exec, plan, st0, i) in AllStanding(exec, plan, base, i)
  {
    if i > 0 {
      var j: nat := i - 1;
      RunStands(exec, plan, base, st0, j);
      AdvanceKeepsStanding(exec, plan, base, RunTo(exec, plan, st0, j), j);
    }
  }

  /** A run ends well after all steps, or stops at the first step that used up its attempts. */
  ghost predicate EndShape(plan: Plan, r: RunState, done: nat)
    requires ValidPlan(plan)
  {
    if r.exec.status.ExecCompleted? then done == |plan.order| && FinishedWell(plan, r)
    else 0 < done <= |plan.order| && FailedAt(plan, r, done - 1)
  }

  ghost predicate Ended(exec: Oracle, plan: Plan, base: Context, r: RunState, done: nat)
    requires ValidPlan(plan)
  {
    done <= |plan.order| && Explained(exec, plan, base, r, done) && EndShape(plan, r, done)
  }

  lemma StandingEnds(exec: Oracle, plan: Plan, base: Context, st: RunState) returns (done: nat)
    requires ValidPlan(plan) && Standing(exec, plan, base, st, |plan.order|)
    ensures Ended(exec, plan, base, Finish(st), done)
  {
    if st.exec.status.ExecFailed? {
      var k: nat :| k < |plan.order| && Stopped(exec, plan, base, st, k);
      done := k + 1;
    } else {
      done := |plan.order|;
      ProgressIsExplained(exec, plan, base, st, done);
      forall j | 0 <= j < |plan.order| ensures plan.order[j] in st.rows && Settled(st.rows[plan.order[j]]) {
        assert SettledAt(exec, plan, st.exec.context, st.rows, j);
      }
    }
  }

  /**
   Main theorem. A run ends in one of two shapes, and in both every row, the final context and the
   whole log of executor calls are determined by the executors' answers.
   */
  lemma RunOutcome(exec: Oracle, plan: Plan, trigger: nat, tenant: Id, depth: nat) returns (done: nat)
    requires ValidPlan(plan)
    ensures Ended(exec, plan, Base(trigger, tenant, depth), RunDag(exec, plan, trigger, tenant, depth), done)
  {
    var base, st0 := Base(trigger, tenant, depth), StartState(plan, trigger, tenant, depth);
    StartIsProgress(exec, plan, trigger, tenant, depth);
    RunStands(exec, plan, base, st0, |plan.order|);
    done := StandingEnds(exec, plan, base, RunTo(exec, plan, st0, |plan.order|));
  }
}
