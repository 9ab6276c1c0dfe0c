/** Readable laws of a finished run, each a consequence of the main theorem. */
module RunLaws {
  import opened Common
  import opened DepGraph
  import opened Definitions
  import opened Status
  import opened Engine
  import opened RunProperties
  import opened RunTheorems

  /**
   A processed step ends skipped exactly when a condition strictly earlier in the order completed and
   lists it in its non-taken branch. Nothing else skips a step: not a skipped dependency, and not a
   skipped condition.
   */
  lemma SkippedIffRuledOut(exec: Oracle, plan: Plan, base: Context, r: RunState, done: nat, j: nat)
    requires ValidPlan(plan) && Ended(exec, plan, base, r, done) && j < done
    ensures plan.order[j] in r.rows
    ensures r.rows[plan.order[j]].status.Skipped? <==> RuledOut(plan, r.rows, j, plan.order[j])
  {
    OrderInDefs(plan, j);
    assert ExplainedAt(exec, plan, base, r.rows, j);
    var n := plan.order[j];
    var ctx := base.(steps := OutputsBefore(plan.order, r.rows, j));
    RetryStopsAtFirstSuccess(exec, plan.defs[n], j, ctx, InitialRow(plan.defs[n]), 0);
  }

  /**
   Every other processed step is executed on the outputs of the steps completed before it: the first
   successful attempt decides, and without one the step uses all its attempts and fails.
   */
  lemma ExecutedStepResult(exec: Oracle, plan: Plan, base: Context, r: RunState, done: nat, j: nat)
    requires ValidPlan(plan) && Ended(exec, plan, base, r, done) && j < done
    requires plan.order[j] in r.rows && !r.rows[plan.order[j]].status.Skipped?
    ensures var n := plan.order[j];
      n in plan.defs &&
      var row, def := r.rows[n], plan.defs[n];
      var ctx := base.(steps := OutputsBefore(plan.order, r.rows, j));
      && 1 <= row.attempt <= row.maxAttempts == MaxAttempts(def)
      && (forall a :: 0 < a < row.attempt ==> !Succeeds(exec, def, ctx, a))
      && (row.status.Completed? <==> Succeeds(exec, def, ctx, row.attempt))
      && (row.status.Completed? ==> row.output == Some(exec(def, row.attempt, ctx).outcome.output))
      && (!row.status.Completed? ==> GaveUp(row))
  {
    SkippedIffRuledOut(exec, plan, base, r, done, j);
    OrderInDefs(plan, j);
    assert ExplainedAt(exec, plan, base, r.rows, j);
    var n := plan.order[j];
    var ctx := base.(steps := OutputsBefore(plan.order, r.rows, j));
    RetryStopsAtFirstSuccess(exec, plan.defs[n], j, ctx, InitialRow(plan.defs[n]), 0);
  }

  lemma RowPosition(exec: Oracle, plan: Plan, base: Context, r: RunState, done: nat, n: Id) returns (j: nat)
    requires ValidPlan(plan) && Ended(exec, plan, base, r, done) && n in plan.defs
    ensures j < |plan.order| && plan.order[j] == n
    ensures n in r.rows && (j >= done ==> r.rows[n] == InitialRow(plan.defs[n]))
  {
    assert n in Elems(plan.order);
    j :| 0 <= j < |plan.order| && plan.order[j] == n;
    if j >= done {
      assert plan.order[done..][j - done] == n;
    }
  }

  /**
   The final context holds the output of every completed step, and nothing else: the output of its first
   successful attempt, made on the outputs of the steps completed before it.
   */
  lemma ContextIsCompletedOutputs(exec: Oracle, plan: Plan, base: Context, r: RunState, done: nat, j: nat)
    requires ValidPlan(plan) && Ended(exec, plan, base, r, done) && j < |plan.order|
    ensures r.exec.context.steps.Keys <= plan.defs.Keys
    ensures var n := plan.order[j];
      n in r.rows && n in plan.defs &&
      var row, steps, seen := r.rows[n], r.exec.context.steps, base.(steps := OutputsBefore(plan.order, r.rows, j));
      && (n in steps <==> row.status.Completed?)
      && (n in steps ==> row.output == Some(steps[n]) && Succeeds(exec, plan.defs[n], seen, row.attempt))
      && (n in steps ==> steps[n] == exec(plan.defs[n], row.attempt, seen).outcome.output)
  {
    OrderInDefs(plan, j);
    var n := plan.order[j];
    OnlyStepsInContext(exec, plan, base, r, done);
    if j < done {
      assert plan.order[..done][j] == n;
      SkippedIffRuledOut(exec, plan, base, r, done, j);
      if !r.rows[n].status.Skipped? {
        ExecutedStepResult(exec, plan, base, r, done, j);
      }
    } else {
      assert plan.order[done..][j - done] == n;
    }
  }

  lemma OnlyStepsInContext(exec: Oracle, plan: Plan, base: Context, r: RunState, done: nat)
    requires ValidPlan(plan) && Ended(exec, plan, base, r, done)
    ensures r.exec.context.steps.Keys <= plan.defs.Keys
  {
  }

  /** Every status the run writes is a path in the step table or the execution table. */
  lemma StatusesFollowTables(exec: Oracle, plan: Plan, base: Context, r: RunState, done: nat, n: Id)
    requires ValidPlan(plan) && Ended(exec, plan, base, r, done) && n in plan.defs
    ensures n in r.rows && TrailOk(r.rows[n]) && r.rows[n].trail[0] == Pending
    ensures ExecPath(r.exec.trail) && r.exec.trail[|r.exec.trail|-1] == r.exec.status
  {
    hide Process, TryFrom;
    var j := RowPosition(exec, plan, base, r, done, n);
    var row0 := InitialRow(plan.defs[n]);
    if j < done {
      assert ExplainedAt(exec, plan, base, r.rows, j);
      var ctx := base.(steps := OutputsBefore(plan.order, r.rows, j));
      RetryFollowsTable(exec, plan.defs[n], j, ctx, row0, 0);
      RetryStartsPending(exec, plan.defs[n], j, ctx, row0, 0);
      MoveKeepsTrail(row0, Skipped);
    }
  }

  lemma {:induction false} RetryStartsPending(exec: Oracle, def: StepDef, pos: nat, ctx: Context, row: StepRow, from: nat)
    requires row.trail != []
    ensures var t := TryFrom(exec, def, pos, ctx, row, from);
      t.row.trail != [] && t.row.trail[0] == row.trail[0]
    decreases row.maxAttempts - from
  {
    if from < row.maxAttempts && exec(def, from + 1, ctx).outcome.Failure? {
      var fault := exec(def, from + 1, ctx).outcome.fault;
      RetryStartsPending(exec, def, pos, ctx, Move(Begin(row, from + 1), Failed).(error := Some(fault)), from + 1);
    }
  }

  // ---- The log of executor calls ----

  /** The calls made for the step at one position of the order. */
  ghost function CallsAt(calls: seq<Call>, pos: nat): seq<Call> {
    if calls == [] then []
    else CallsAt(calls[..|calls|-1], pos) + if calls[|calls|-1].pos == pos then [calls[|calls|-1]] else []
  }

  lemma {:induction false} CallsAtConcat(a: seq<Call>, b: seq<Call>, pos: nat)
    ensures CallsAt(a + b, pos) == CallsAt(a, pos) + CallsAt(b, pos)
  {
    if b == [] {
      assert a + b == a;
    } else {
      assert (a + b)[..|a + b| - 1] == a + b[..|b|-1];
      CallsAtConcat(a, b[..|b|-1], pos);
    }
  }

  lemma {:induction false} CallsAtBlock(block: seq<Call>, at: nat, pos: nat)
    requires forall c :: c in block ==> c.pos == at
    ensures CallsAt(block, pos) == if at == pos then block else []
  {
    if block != [] {
      CallsAtBlock(block[..|block|-1], at, pos);
      assert block == block[..|block|-1] + [block[|block|-1]];
    }
  }

  ghost function BlockAt(plan: Plan, rows: map<Id, StepRow>, j: nat): seq<Call>
    requires ValidPlan(plan) && j < |plan.order| && rows.Keys == plan.defs.Keys
  {
    OrderInDefs(plan, j);
    var n := plan.order[j];
    if rows[n].status.Skipped? then [] else Attempted(j, n, 0, rows[n].attempt, OutputsBefore(plan.order, rows, j))
  }

  lemma {:induction false} CallsBeforeAt(plan: Plan, rows: map<Id, StepRow>, i: nat, pos: nat)
    requires ValidPlan(plan) && i <= |plan.order| && rows.Keys == plan.defs.Keys
    ensures CallsAt(CallsBefore(plan, rows, i), pos) == if pos < i then BlockAt(plan, rows, pos) else []
  {
    if i > 0 {
      var j: nat := i - 1;
      CallsBeforeAt(plan, rows, j, pos);
      NextBlock(plan, rows, j, pos);
    }
  }

  lemma NextBlock(plan: Plan, rows: map<Id, StepRow>, j: nat, pos: nat)
    requires ValidPlan(plan) && j < |plan.order| && rows.Keys == plan.defs.Keys
    ensures CallsAt(CallsBefore(plan, rows, j + 1), pos) ==
      CallsAt(CallsBefore(plan, rows, j), pos) + if pos == j then BlockAt(plan, rows, j) else []
  {
    CallsAtConcat(CallsBefore(plan, rows, j), BlockAt(plan, rows, j), pos);
    CallsAtBlock(BlockAt(plan, rows, j), j, pos);
  }

  /**
   Each executed step makes exactly `attempt` executor calls, numbered 1, 2, ..., and each of them is
   given exactly the outputs of the steps that completed earlier in the order. Skipped and unreached
   steps make none.
   */
  lemma CallsOfStep(exec: Oracle, plan: Plan, base: Context, r: RunState, done: nat, j: nat)
    requires ValidPlan(plan) && Ended(exec, plan, base, r, done) && j < |plan.order|
    ensures plan.order[j] in r.rows
    ensures var row := r.rows[plan.order[j]];
      CallsAt(r.calls, j) ==
        if j >= done || row.status.Skipped? then []
        else Attempted(j, plan.order[j], 0, row.attempt, OutputsBefore(plan.order, r.rows, j))
  {
    OrderInDefs(plan, j);
    CallsBeforeAt(plan, r.rows, done, j);
  }

  lemma {:induction false} CallIsListed(calls: seq<Call>, c: Call)
    requires c in calls
    ensures c in CallsAt(calls, c.pos)
  {
    var last := calls[|calls|-1];
    if c != last {
      assert calls == calls[..|calls|-1] + [last];
      CallIsListed(calls[..|calls|-1], c);
    }
  }

  /**
   In an order that respects dependencies, every executor call of a step is given the output of each of
   the step's dependencies exactly when that dependency completed, and it is the final output.
   */
  lemma DependenciesAreVisible(exec: Oracle, plan: Plan, base: Context, r: RunState, done: nat, g: Graph, c: Call, d: Id)
    requires ValidPlan(plan) && Ended(exec, plan, base, r, done)
    requires DepsFirst(g, plan.order) && c in r.calls && c.pos < |plan.order| && Edge(g, d, plan.order[c.pos])
    ensures d in r.rows
    ensures d in c.seen <==> r.rows[d].status.Completed?
    ensures d in c.seen ==> d in r.exec.context.steps && c.seen[d] == r.exec.context.steps[d]
  {
    var j := c.pos;
    CallIsListed(r.calls, c);
    CallsOfStep(exec, plan, base, r, done, j);
    assert c.seen == OutputsBefore(plan.order, r.rows, j);
    assert d in plan.order[..j];
    var i :| 0 <= i < j && plan.order[i] == d;
    OrderInDefs(plan, i);
    ContextIsCompletedOutputs(exec, plan, base, r, done, i);
  }
}
