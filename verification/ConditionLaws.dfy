/**
 What conditions and sub-workflow steps do to a run, from the rendered text and the stored definitions to
 the steps that are skipped. The laws speak of the fields of rows and definitions only.
 */
module ConditionLaws {
  import opened Common
  import opened DepGraph
  import opened Definitions
  import opened Status
  import opened Engine
  import opened Planning
  import opened RunProperties
  import opened RunTheorems
  import opened RunLaws
  import opened Nested
  import Parser

  // ---- Which steps a completed condition excludes ----

  /** The truth of an output: its boolean result, or a text that is not one of the words for false. */
  predicate SaysTrue(o: Output) {
    match o
    case Branch(taken, _) => taken
    case Data(Flag(b), _) => b
    case Data(Text(s), _) => !IsFalseWord(s)
    case Data(Missing, _) => false
    case SubRun(_, _) => false
  }

  lemma TruthAgrees(o: Output)
    ensures IsTruthy(o) == SaysTrue(o)
  {
    if o.Data? && o.result.Text? {
      FalseWordIff(o.result.text);
    }
  }

  ghost predicate CompletedCondition(plan: Plan, rows: map<Id, StepRow>, i: nat) {
    && i < |plan.order| && plan.order[i] in plan.defs && plan.order[i] in rows
    && plan.defs[plan.order[i]].kind == Condition
    && rows[plan.order[i]].status == Completed && rows[plan.order[i]].output.Some?
  }

  /** The i-th step is a completed condition that has n in the branch that its output does not choose. */
  ghost predicate Excludes(plan: Plan, rows: map<Id, StepRow>, i: nat, n: Id) {
    && CompletedCondition(plan, rows, i)
    && var config := plan.defs[plan.order[i]].config;
    && n in (if SaysTrue(rows[plan.order[i]].output.value) then config.falseBranch else config.trueBranch)
  }

  lemma ExcludesIsRulesOut(plan: Plan, rows: map<Id, StepRow>, j: nat, n: Id)
    requires ValidPlan(plan) && j <= |plan.order|
    ensures RuledOut(plan, rows, j, n) <==> exists i: nat :: i < j && Excludes(plan, rows, i, n)
  {
    if RuledOut(plan, rows, j, n) {
      var c :| RulesOut(plan, rows, j, c, n);
      var i :| 0 <= i < j && plan.order[i] == c;
      TruthAgrees(rows[c].output.value);
      assert Excludes(plan, rows, i, n);
    }
    if i: nat :| i < j && Excludes(plan, rows, i, n) {
      TruthAgrees(rows[plan.order[i]].output.value);
      assert plan.order[..j][i] == plan.order[i];
      assert RulesOut(plan, rows, j, plan.order[i], n);
    }
  }

  /**
   Main theorem, for every behaviour of the executors: a processed step is skipped if and only if an earlier
   condition completed and has it in the branch that its output does not choose. Steps of other kinds
   exclude nothing.
   */
  lemma SkippedIffExcluded(exec: Oracle, plan: Plan, base: Context, r: RunState, done: nat, j: nat)
    requires ValidPlan(plan) && Ended(exec, plan, base, r, done) && j < done
    ensures plan.order[j] in r.rows
    ensures r.rows[plan.order[j]].status == Skipped <==> exists i: nat :: i < j && Excludes(plan, r.rows, i, plan.order[j])
  {
    SkippedIffRuledOut(exec, plan, base, r, done, j);
    ExcludesIsRulesOut(plan, r.rows, j, plan.order[j]);
  }

  // ---- Conditions answer with a branch ----

  ghost predicate ConditionsBranch(exec: Oracle, defs: map<Id, StepDef>) {
    forall n: Id, a: nat, ctx: Context :: n in defs && defs[n].kind == Condition && exec(defs[n], a, ctx).outcome.Success? ==>
      exec(defs[n], a, ctx).outcome.output.Branch?
  }

  ghost predicate OtherBranchLists(plan: Plan, rows: map<Id, StepRow>, i: nat, n: Id) {
    && CompletedCondition(plan, rows, i)
    && rows[plan.order[i]].output.value.Branch?
    && var config := plan.defs[plan.order[i]].config;
    && n in (if rows[plan.order[i]].output.value.taken then config.falseBranch else config.trueBranch)
  }

  /** With such conditions, a step is skipped if and only if an earlier one has it in the branch it did not take. */
  lemma SkippedIffOtherBranchTaken(exec: Oracle, plan: Plan, base: Context, r: RunState, done: nat, j: nat)
    requires ValidPlan(plan) && Ended(exec, plan, base, r, done) && j < done && ConditionsBranch(exec, plan.defs)
    ensures plan.order[j] in r.rows
    ensures r.rows[plan.order[j]].status == Skipped <==>
      exists i: nat :: i < j && OtherBranchLists(plan, r.rows, i, plan.order[j])
  {
    SkippedIffExcluded(exec, plan, base, r, done, j);
    forall i: nat | i < j && CompletedCondition(plan, r.rows, i) ensures r.rows[plan.order[i]].output.value.Branch? {
      ExecutedStepResult(exec, plan, base, r, done, i);
    }
    forall i: nat | i < j ensures Excludes(plan, r.rows, i, plan.order[j]) <==> OtherBranchLists(plan, r.rows, i, plan.order[j]) {
    }
  }

  // ---- What the executors answer ----

  /** The rendered text is not a word for false, whatever the letter case and the space around it. */
  ghost predicate Holds(text: string) {
    !exists l, m, r :: PaddedFalse(text, l, m, r)
  }

  /** The condition step: it needs an expression that renders, and the text decides the branch. */
  lemma ConditionAnswer(w: World, depth: nat, path: CallPath, def: StepDef, attempt: nat, ctx: Context)
    requires def.kind == Condition
    ensures var outcome, text := Executor(w, depth, path)(def, attempt, ctx).outcome, w.render(path, def, attempt, ctx);
      && (outcome.Success? <==> def.config.hasExpression && text.Ok?)
      && (outcome.Success? ==>
           (var holds := Holds(text.value);
            outcome.output == Branch(holds, if holds then def.config.trueBranch else def.config.falseBranch)))
      && (!def.config.hasExpression ==> outcome == Failure(StepConfigError))
      && (def.config.hasExpression && text.Err? ==> outcome == Failure(External(text.error)))
  {
    if w.render(path, def, attempt, ctx).Ok? {
      TruthinessIff(w.render(path, def, attempt, ctx).value);
    }
  }

  /** The other leaf steps answer what the world answers for them. */
  lemma LeafAnswer(w: World, depth: nat, path: CallPath, def: StepDef, attempt: nat, ctx: Context)
    requires def.kind == Http || def.kind == Transform || def.kind == Delay
    ensures Executor(w, depth, path)(def, attempt, ctx) == Reply(w.leaf(path, def, attempt, ctx), 0, 0)
  {
  }

  /** The fault with which the sub-workflow step refuses, if it does: the first of its checks that fails. */
  ghost predicate RefusesWith(w: World, depth: nat, path: CallPath, def: StepDef, attempt: nat, ctx: Context, fault: Fault) {
    var target := def.config.target;
    if target == None then fault == StepConfigError
    else if depth >= w.maxDepth then fault == DepthExceeded
    else if target.value !in w.workflows || w.workflows[target.value].tenant != ctx.tenant then fault == NotFound
    else if !w.workflows[target.value].active then fault == Inactive
    else if w.mapInput(path, def, attempt, ctx).Err? then fault == External(w.mapInput(path, def, attempt, ctx).error)
    else !Parser.Accepted(w.workflows[target.value].steps, w.maxSteps) && fault == InvalidDefinition
  }

  /**
   The sub-workflow step: either the first failing check, or the report of the stored workflow's run on the
   mapped input, for the same tenant, one level deeper.
   */
  lemma SubWorkflowAnswer(w: World, depth: nat, path: CallPath, def: StepDef, attempt: nat, ctx: Context)
    requires def.kind == SubWorkflow
    ensures var reply := Executor(w, depth, path)(def, attempt, ctx);
      if reply.outcome.Failure? then RefusesWith(w, depth, path, def, attempt, ctx, reply.outcome.fault) && reply.cost == 0
      else Reports(w, depth, path, def, attempt, ctx, reply)
  {
    var reply := Executor(w, depth, path)(def, attempt, ctx);
    assert reply == RunStep(w, depth, path, def, attempt, ctx);
    assert reply == RunSubWorkflow(w, depth, path, def, attempt, ctx);
    if TargetOf(w, depth, def, ctx.tenant).Ok? && w.mapInput(path, def, attempt, ctx).Ok? {
      var wf := w.workflows[def.config.target.value];
      StartsIffAccepted(w, wf, w.mapInput(path, def, attempt, ctx).value, ctx.tenant, depth + 1, path + [(def.id, attempt)]);
    }
  }

  lemma StartsIffAccepted(w: World, wf: Workflow, trigger: nat, tenant: Id, depth: nat, path: CallPath)
    ensures Start(w, wf, trigger, tenant, depth, path).Some? <==> Parser.Accepted(wf.steps, w.maxSteps)
  {
  }

  /** The reply carries the status and the context of the target's run, and its executor calls. */
  ghost predicate Reports(w: World, depth: nat, path: CallPath, def: StepDef, attempt: nat, ctx: Context, reply: Reply) {
    var target := def.config.target;
    && target.Some? && depth < w.maxDepth && target.value in w.workflows
    && var wf, trigger := w.workflows[target.value], w.mapInput(path, def, attempt, ctx);
    && wf.tenant == ctx.tenant && wf.active && trigger.Ok?
    && var child := Start(w, wf, trigger.value, ctx.tenant, depth + 1, path + [(def.id, attempt)]);
    && child.Some? && reply.cost == child.value.cost
    && reply.outcome == Success(SubRun(child.value.exec.status, child.value.exec.context))
  }

  lemma ExecutorsBranch(w: World, depth: nat, path: CallPath, defs: map<Id, StepDef>)
    ensures ConditionsBranch(Executor(w, depth, path), defs)
  {
    forall n: Id, a: nat, ctx: Context | n in defs && defs[n].kind == Condition
      && Executor(w, depth, path)(defs[n], a, ctx).outcome.Success?
      ensures Executor(w, depth, path)(defs[n], a, ctx).outcome.output.Branch?
    {
      ConditionAnswer(w, depth, path, defs[n], a, ctx);
    }
  }

  // ---- From the rendered text to the skipped steps ----

  /**
   The i-th step is a completed condition, and the text that its last attempt rendered, on the outputs
   completed before it, decides against the branch that lists n.
   */
  ghost predicate TextExcludes(w: World, path: CallPath, plan: Plan, base: Context, rows: map<Id, StepRow>, i: nat, n: Id) {
    && CompletedCondition(plan, rows, i)
    && var def, row := plan.defs[plan.order[i]], rows[plan.order[i]];
    && var text := w.render(path, def, row.attempt, base.(steps := OutputsBefore(plan.order, rows, i)));
    && text.Ok? && n in (if Holds(text.value) then def.config.falseBranch else def.config.trueBranch)
  }

  /**
   Main theorem, for runs of the real executors: a processed step is skipped if and only if an earlier
   condition completed whose rendered text decides against the branch that lists the step.
   */
  lemma SkippedIffTextExcludes(w: World, depth: nat, path: CallPath, plan: Plan, base: Context, r: RunState, done: nat, j: nat)
    requires ValidPlan(plan) && Ended(Executor(w, depth, path), plan, base, r, done) && j < done
    ensures plan.order[j] in r.rows
    ensures r.rows[plan.order[j]].status == Skipped <==>
      exists i: nat :: i < j && TextExcludes(w, path, plan, base, r.rows, i, plan.order[j])
  {
    var exec, n := Executor(w, depth, path), plan.order[j];
    ExecutorsBranch(w, depth, path, plan.defs);
    SkippedIffOtherBranchTaken(exec, plan, base, r, done, j);
    forall i: nat | i < j
      ensures OtherBranchLists(plan, r.rows, i, n) <==> TextExcludes(w, path, plan, base, r.rows, i, n)
    {
      if CompletedCondition(plan, r.rows, i) {
        TextDecides(w, depth, path, plan, base, r, done, i);
      }
    }
  }

  /** The output of a completed condition is the branch that its rendered text chooses. */
  lemma TextDecides(w: World, depth: nat, path: CallPath, plan: Plan, base: Context, r: RunState, done: nat, i: nat)
    requires ValidPlan(plan) && Ended(Executor(w, depth, path), plan, base, r, done) && i < done
    requires CompletedCondition(plan, r.rows, i)
    ensures var def, row := plan.defs[plan.order[i]], r.rows[plan.order[i]];
      var text := w.render(path, def, row.attempt, base.(steps := OutputsBefore(plan.order, r.rows, i)));
      text.Ok? && row.output.value.Branch? && row.output.value.taken == Holds(text.value)
  {
    hide Executor;
    ExecutedStepResult(Executor(w, depth, path), plan, base, r, done, i);
    var def, row := plan.defs[plan.order[i]], r.rows[plan.order[i]];
    ConditionAnswer(w, depth, path, def, row.attempt, base.(steps := OutputsBefore(plan.order, r.rows, i)));
  }

  // ---- What a run starts from ----

  /** A row that has not been touched: pending, no output, no error, and three attempts unless set otherwise. */
  ghost predicate FreshRow(row: StepRow, def: StepDef) {
    && row.status == Pending && row.attempt == 1 && row.output == None && row.error == None && row.trail == [Pending]
    && row.maxAttempts == if def.retry == None then 3 else def.retry.value
  }

  /**
   A started run: it belongs to the given trigger, tenant and depth, has one row per step of the definition,
   ends as every run does, and the rows that it never reached are fresh.
   */
  lemma StartedRun(w: World, wf: Workflow, trigger: nat, tenant: Id, depth: nat, path: CallPath) returns (done: nat)
    ensures Start(w, wf, trigger, tenant, depth, path).Some? <==> Parser.Accepted(wf.steps, w.maxSteps)
    ensures Parser.Accepted(wf.steps, w.maxSteps) ==>
      var r, steps := Start(w, wf, trigger, tenant, depth, path).value, Parser.StepsOf(wf.steps);
      && r.exec.context.trigger == trigger && r.exec.context.tenant == tenant && r.exec.context.depth == depth
      && (forall n :: n in r.rows <==> exists i :: 0 <= i < |steps| && steps[i].id == n)
      && ValidPlan(PlanOf(steps)) && Ended(Executor(w, depth, path), PlanOf(steps), Context(trigger, map[], depth, tenant), r, done)
      && forall j :: done <= j < |PlanOf(steps).order| ==>
           var n := PlanOf(steps).order[j]; n in r.rows && n in PlanOf(steps).defs && FreshRow(r.rows[n], PlanOf(steps).defs[n])
  {
    done := 0;
    if Parser.Accepted(wf.steps, w.maxSteps) {
      var steps := Parser.StepsOf(wf.steps);
      var plan := PlanOf(steps);
      PlanIsValid(steps);
      done := RunOutcome(Executor(w, depth, path), plan, trigger, tenant, depth);
      DefsOfSteps(steps);
      var r := RunDag(Executor(w, depth, path), plan, trigger, tenant, depth);
      RowsOfSteps(steps, r.rows);
      UnreachedIsFresh(Executor(w, depth, path), plan, Base(trigger, tenant, depth), r, done);
    }
  }

  lemma RowsOfSteps(steps: seq<StepDef>, rows: map<Id, StepRow>)
    requires UniqueIds(steps) && rows.Keys == DefsOf(steps).Keys
    ensures forall n :: n in rows <==> exists i :: 0 <= i < |steps| && steps[i].id == n
  {
    DefsOfSteps(steps);
    forall n ensures n in rows <==> exists i :: 0 <= i < |steps| && steps[i].id == n {
      assert n in rows <==> n in DefsOf(steps);
      if s :| s in steps && s.id == n {
        var i :| 0 <= i < |steps| && steps[i] == s;
      }
      if i :| 0 <= i < |steps| && steps[i].id == n {
        assert steps[i] in steps;
      }
    }
  }

  lemma UnreachedIsFresh(exec: Oracle, plan: Plan, base: Context, r: RunState, done: nat)
    requires ValidPlan(plan) && Ended(exec, plan, base, r, done)
    ensures forall j :: done <= j < |plan.order| ==>
      plan.order[j] in r.rows && plan.order[j] in plan.defs && FreshRow(r.rows[plan.order[j]], plan.defs[plan.order[j]])
  {
    forall j | done <= j < |plan.order|
      ensures plan.order[j] in r.rows && plan.order[j] in plan.defs && FreshRow(r.rows[plan.order[j]], plan.defs[plan.order[j]])
    {
      assert plan.order[done..][j - done] == plan.order[j];
    }
  }
}
