/**
 The orchestrator as it runs: one object per execution, whose rows the loops rewrite step by step.
 Every method is proved equal to the meaning given in Engine and Nested.
 */
module Orchestrator {
  import opened Common
  import opened Definitions
  import opened Status
  import opened Engine
  import opened Planning
  import opened Nested
  import opened RunProperties
  import Parser
  import Scheduler

  /** The rows of one execution. `calls`, `cost` and `deepest` record the executor calls for the proof. */
  class Execution {
    var exec: ExecRow
    var rows: map<Id, StepRow>
    ghost var calls: seq<Call>
    ghost var cost: nat
    ghost var deepest: nat

    ghost predicate Shows(st: RunState)
      reads this
    {
      exec == st.exec && rows == st.rows && calls == st.calls && cost == st.cost && deepest == st.deepest
    }

    constructor (trigger: nat)
      ensures exec == ExecRow(ExecPending, None, Context(trigger, map[], 0, 0), [ExecPending])
      ensures rows == map[] && calls == [] && cost == 0 && deepest == 0
    {
      exec := ExecRow(ExecPending, None, Context(trigger, map[], 0, 0), [ExecPending]);
      rows, calls, cost, deepest := map[], [], 0, 0;
    }

    /** Moves the execution along its table, or raises. */
    method TransitionExecution(s: ExecStatus) returns (raised: Option<Fault>)
      modifies this`exec
      ensures raised == if ExecAllowed(old(exec).status, s) then None else Some(InvalidTransition)
      ensures exec == if raised.None? then old(exec).(status := s, trail := old(exec).trail + [s]) else old(exec)
    {
      if !ExecAllowed(exec.status, s) {
        return Some(InvalidTransition);
      }
      exec := exec.(status := s, trail := exec.trail + [s]);
      return None;
    }

    /** Moves a step along its table, or raises; a given error text is stored. */
    method TransitionStep(id: Id, s: StepStatus, error: Option<Fault>) returns (raised: Option<Fault>)
      modifies this`rows
      ensures raised == if id !in old(rows) then Some(NotFound)
                        else if StepAllowed(old(rows)[id].status, s) then None else Some(InvalidTransition)
      ensures raised.Some? ==> rows == old(rows)
      ensures raised.None? ==> rows == old(rows)[id := WithError(Move(old(rows)[id], s), error)]
    {
      if id !in rows {
        return Some(NotFound);
      }
      if !StepAllowed(rows[id].status, s) {
        return Some(InvalidTransition);
      }
      rows := rows[id := WithError(Move(rows[id], s), error)];
      return None;
    }

    /** Adds one output to the shared context. */
    method MergeStepOutput(id: Id, output: Output)
      modifies this`exec
      ensures exec == WithOutput(old(exec), id, output)
    {
      exec := exec.(context := exec.context.(steps := exec.context.steps[id := output]));
    }

    /** Attempt number, queued, running: everything that precedes the executor call. */
    method BeginAttempt(id: Id, attempt: nat) returns (raised: Option<Fault>)
      requires id in rows && (rows[id].status.Pending? || rows[id].status.Failed?)
      modifies this`rows
      ensures raised == None && rows == old(rows)[id := Begin(old(rows)[id], attempt)]
    {
      rows := rows[id := rows[id].(attempt := attempt)];
      if rows[id].status.Pending? || rows[id].status.Failed? {
        raised := TransitionStep(id, Queued, None);
        if raised.Some? {
          return;
        }
      }
      raised := TransitionStep(id, Running, None);
    }

    /** Completes the step, stores its output and merges it into the context. */
    method FinishAttempt(id: Id, output: Output) returns (raised: Option<Fault>)
      requires id in rows && rows[id].status.Running?
      modifies this`rows, this`exec
      ensures raised == None && rows == old(rows)[id := Move(old(rows)[id], Completed).(output := Some(output))]
      ensures exec == WithOutput(old(exec), id, output)
    {
      raised := TransitionStep(id, Completed, None);
      if raised.Some? {
        return;
      }
      rows := rows[id := rows[id].(output := Some(output))];
      MergeStepOutput(id, output);
    }

    /** One executor call and what follows from its outcome. */
    method Attempt(w: World, path: CallPath, pos: nat, def: StepDef, attempt: nat) returns (raised: Option<Fault>, ok: bool)
      requires def.id in rows && (rows[def.id].status.Pending? || rows[def.id].status.Failed?)
      modifies this
      ensures var ctx, row := old(exec).context, Begin(old(rows)[def.id], attempt);
        var reply := Executor(w, ctx.depth, path)(def, attempt, ctx);
        && raised == None && ok == reply.outcome.Success?
        && calls == old(calls) + [Call(pos, def.id, attempt, ctx.steps)]
        && cost == old(cost) + reply.cost + 1 && deepest == MaxNat(old(deepest), reply.deepest)
        && match reply.outcome
           case Success(output) =>
             && rows == old(rows)[def.id := Move(row, Completed).(output := Some(output))]
             && exec == WithOutput(old(exec), def.id, output)
           case Failure(fault) =>
             rows == old(rows)[def.id := Move(row, Failed).(error := Some(fault))] && exec == old(exec)
      decreases Left(w, exec.context.depth), 4
    {
      ok := false;
      raised := BeginAttempt(def.id, attempt);
      if raised.Some? {
        return;
      }
      calls := calls + [Call(pos, def.id, attempt, exec.context.steps)];
      var outcome;
      ghost var nested;
      outcome, nested := Dispatch(w, path, def, attempt, exec.context);
      cost, deepest := cost + nested.cost + 1, MaxNat(deepest, nested.deepest);
      match outcome {
        case Success(output) =>
          raised := FinishAttempt(def.id, output);
          ok := true;
        case Failure(fault) =>
          raised := TransitionStep(def.id, Failed, Some(fault));
      }
    }

    /** The retry loop of one step: true when an attempt succeeded, false when all attempts are used up. */
    method ExecuteStepWithRetry(w: World, path: CallPath, pos: nat, def: StepDef) returns (raised: Option<Fault>, ok: bool)
      requires def.id in rows && rows[def.id].status.Pending?
      modifies this
      ensures var t := TryFrom(Executor(w, old(exec).context.depth, path), def, pos, old(exec).context, old(rows)[def.id], 0);
        && raised == None && ok == t.ok
        && rows == old(rows)[def.id := t.row] && calls == old(calls) + t.calls
        && cost == old(cost) + t.cost && deepest == MaxNat(old(deepest), t.deepest)
        && exec == if t.ok then WithOutput(old(exec), def.id, t.row.output.value) else old(exec)
      decreases Left(w, exec.context.depth), 5
    {
      hide TryFrom, Executor;
      ghost var e := Executor(w, exec.context.depth, path);
      ghost var whole := TryFrom(e, def, pos, exec.context, rows[def.id], 0);
      var maxAttempts := rows[def.id].maxAttempts;
      var attempt := 0;
      raised, ok := None, false;
      assert rows == rows[def.id := rows[def.id]];
      while attempt < maxAttempts
        invariant 0 <= attempt <= maxAttempts && exec == old(exec) && raised == None && !ok
        invariant def.id in rows && rows == old(rows)[def.id := rows[def.id]] && rows[def.id].maxAttempts == maxAttempts
        invariant rows[def.id].status.Pending? || rows[def.id].status.Failed?
        invariant Accounts(whole, old(calls), old(cost), old(deepest),
                           TryFrom(e, def, pos, exec.context, rows[def.id], attempt), calls, cost, deepest)
        decreases maxAttempts - attempt
      {
        ghost var row, calls0, cost0, deepest0 := rows[def.id], calls, cost, deepest;
        AttemptAccounts(whole, old(calls), old(cost), old(deepest), e, def, pos, exec.context, row, attempt, calls0, cost0, deepest0);
        attempt := attempt + 1;
        raised, ok := Attempt(w, path, pos, def, attempt);
        if raised.Some? || ok {
          return;
        }
      }
      AttemptsExhausted(e, def, pos, exec.context, rows[def.id], attempt);
    }

    /** One round of the main loop: skip the step, or execute it and act on the result. */
    method ProcessStep(w: World, path: CallPath, ghost plan: Plan, ghost st: RunState, i: nat, id: Id, def: StepDef, skipped: set<Id>)
      returns (raised: Option<Fault>, ok: bool, nowSkipped: set<Id>)
      requires ValidPlan(plan) && i < |plan.order| && plan.order[i] == id && id in plan.defs && plan.defs[id] == def
      requires Shows(st) && st.rows.Keys == plan.defs.Keys && skipped == st.skipped
      requires Untouched(plan, rows, i) && exec.status.ExecRunning?
      modifies this
      ensures var r := Process(Executor(w, old(exec).context.depth, path), plan, i, st);
        && raised == None && Shows(r) && (ok <==> !r.exec.status.ExecFailed?) && (ok ==> nowSkipped == r.skipped)
      ensures ok ==> Untouched(plan, rows, i + 1) && exec.status.ExecRunning? && exec.context.depth == old(exec).context.depth
      decreases Left(w, exec.context.depth), 6
    {
      ghost var rows0 := rows;
      UntouchedShrinks(plan, rows, i, rows[id]);
      ok, nowSkipped := true, skipped;
      if id in skipped {
        raised := TransitionStep(id, Skipped, None);
      } else {
        raised, ok := ExecuteStepWithRetry(w, path, i, def);
        if !ok {
          exec := exec.(status := ExecFailed, failedStep := Some(id), trail := exec.trail + [ExecFailed]);
          return;
        }
        nowSkipped := skipped + NewlySkipped(def, rows[id].output.value);
      }
      UntouchedShrinks(plan, rows0, i, rows[id]);
    }

    /** The main loop; it stops early when a step is out of attempts. */
    method RunSteps(w: World, path: CallPath, ghost plan: Plan, ghost st0: RunState, defs: map<Id, StepDef>, order: seq<Id>)
      returns (raised: Option<Fault>, ok: bool)
      requires ValidPlan(plan) && order == plan.order && defs == plan.defs && st0.rows.Keys == plan.defs.Keys
      requires Shows(st0) && st0.skipped == {} && exec.status.ExecRunning? && Untouched(plan, rows, 0)
      modifies this
      ensures raised == None
      ensures Shows(RunTo(Executor(w, old(exec).context.depth, path), plan, st0, |order|))
      ensures if ok then exec.status.ExecRunning? else exec.status.ExecFailed?
      decreases Left(w, exec.context.depth), 7
    {
      hide Executor, Process, RunTo, ValidPlan, Untouched;
      ghost var e, st := Executor(w, exec.context.depth, path), st0;
      var skipped: set<Id> := {};
      raised, ok := None, true;
      NoRounds(e, plan, st0);
      var i := 0;
      while i < |order|
        invariant 0 <= i <= |order| && raised == None && ok
        invariant st == RunTo(e, plan, st0, i) && Shows(st) && skipped == st.skipped
        invariant exec.status.ExecRunning? && exec.context.depth == old(exec).context.depth
        invariant Untouched(plan, rows, i)
      {
        var id := order[i];
        OrderInDefs(plan, i);
        raised, ok, skipped := ProcessStep(w, path, plan, st, i, id, defs[id], skipped);
        NextState(e, plan, st0, i);
        st := Process(e, plan, i, st);
        if !ok {
          FailedStays(e, plan, st0, i + 1, |order|);
          return;
        }
        i := i + 1;
      }
    }

    /** Runs the steps in topological order; a step out of attempts fails the execution at once. */
    method ExecuteDag(w: World, path: CallPath, steps: seq<StepDef>) returns (raised: Option<Fault>)
      requires UniqueIds(steps) && ValidPlan(PlanOf(steps))
      requires Shows(StartState(PlanOf(steps), exec.context.trigger, exec.context.tenant, exec.context.depth))
      modifies this
      ensures raised == None
      ensures var c := old(exec).context;
        Shows(RunDag(Executor(w, c.depth, path), PlanOf(steps), c.trigger, c.tenant, c.depth))
      decreases Left(w, exec.context.depth), 8
    {
      hide Executor, RunTo;
      ghost var plan, c := PlanOf(steps), exec.context;
      var defs := IndexSteps(steps);
      var order := Scheduler.TopologicalSort(steps);
      StartIsUntouched(plan, c.trigger, c.tenant, c.depth);
      var ok;
      raised, ok := RunSteps(w, path, plan, StartState(plan, c.trigger, c.tenant, c.depth), defs, order);
      if ok {
        raised := TransitionExecution(ExecCompleted);
      }
    }

    /** Rows and metadata of a fresh execution, just before its first step. */
    method Prepare(steps: seq<StepDef>, tenant: Id, newDepth: nat) returns (raised: Option<Fault>)
      requires exec == ExecRow(ExecPending, None, Context(exec.context.trigger, map[], 0, 0), [ExecPending])
      requires calls == [] && cost == 0
      modifies this
      ensures raised == None
      ensures Shows(StartState(PlanOf(steps), old(exec).context.trigger, tenant, newDepth))
    {
      raised := TransitionExecution(ExecRunning);
      rows := CreateStepRows(steps);
      exec := exec.(context := exec.context.(depth := newDepth, tenant := tenant));
      deepest := newDepth;
    }
  }

  /** What is still to come, added to what has been recorded so far, is the whole retry loop. */
  ghost predicate Accounts(whole: Tried, calls0: seq<Call>, cost0: nat, deepest0: nat,
                           rest: Tried, calls: seq<Call>, cost: nat, deepest: nat)
  {
    && rest.row == whole.row && rest.ok == whole.ok
    && calls0 + whole.calls == calls + rest.calls
    && cost0 + whole.cost == cost + rest.cost
    && MaxNat(deepest0, whole.deepest) == MaxNat(deepest, rest.deepest)
  }

  /** Recording one attempt keeps the account. */
  lemma AttemptAccounts(whole: Tried, calls0: seq<Call>, cost0: nat, deepest0: nat, e: Oracle, def: StepDef, pos: nat, ctx: Context,
                        row: StepRow, attempt: nat, calls: seq<Call>, cost: nat, deepest: nat)
    requires attempt < row.maxAttempts
    requires Accounts(whole, calls0, cost0, deepest0, TryFrom(e, def, pos, ctx, row, attempt), calls, cost, deepest)
    ensures var reply, begun := e(def, attempt + 1, ctx), Begin(row, attempt + 1);
      var rest :=
        if reply.outcome.Success? then Tried(Move(begun, Completed).(output := Some(reply.outcome.output)), true, [], 0, 0)
        else TryFrom(e, def, pos, ctx, Move(begun, Failed).(error := Some(reply.outcome.fault)), attempt + 1);
      Accounts(whole, calls0, cost0, deepest0, rest, calls + [Call(pos, def.id, attempt + 1, ctx.steps)],
               cost + reply.cost + 1, MaxNat(deepest, reply.deepest))
  {
    var rest := TryFrom(e, def, pos, ctx, row, attempt);
    var call := Call(pos, def.id, attempt + 1, ctx.steps);
    assert rest.calls == [call] + rest.calls[1..];
    assert calls + rest.calls == (calls + [call]) + rest.calls[1..];
  }

  lemma AttemptsExhausted(e: Oracle, def: StepDef, pos: nat, ctx: Context, row: StepRow, attempt: nat)
    requires attempt >= row.maxAttempts
    ensures TryFrom(e, def, pos, ctx, row, attempt) == Tried(row, false, [], 0, 0)
  {
  }

  function WithError(row: StepRow, error: Option<Fault>): StepRow {
    if error.Some? then row.(error := error) else row
  }

  ghost function WithOutput(e: ExecRow, id: Id, output: Output): ExecRow {
    e.(context := e.context.(steps := e.context.steps[id := output]))
  }

  /** Sends the step to its executor. */
  method Dispatch(w: World, path: CallPath, def: StepDef, attempt: nat, ctx: Context)
    returns (outcome: Outcome, ghost reply: Reply)
    ensures outcome == Executor(w, ctx.depth, path)(def, attempt, ctx).outcome
    ensures reply == Executor(w, ctx.depth, path)(def, attempt, ctx)
    decreases Left(w, ctx.depth), 3
  {
    reply := RunStep(w, ctx.depth, path, def, attempt, ctx);
    match def.kind {
      case Condition =>
        outcome := ConditionOutcome(def, w.render(path, def, attempt, ctx));
      case SubWorkflow =>
        outcome := ExecuteSubWorkflow(w, path, def, attempt, ctx);
      case _ =>
        outcome := w.leaf(path, def, attempt, ctx);
    }
    assert reply == Executor(w, ctx.depth, path)(def, attempt, ctx);
  }

  /** The sub-workflow executor: guards first, then a run one level deeper. */
  method ExecuteSubWorkflow(w: World, path: CallPath, def: StepDef, attempt: nat, ctx: Context) returns (outcome: Outcome)
    ensures outcome == RunSubWorkflow(w, ctx.depth, path, def, attempt, ctx).outcome
    decreases Left(w, ctx.depth), 2
  {
    var target := TargetOf(w, ctx.depth, def, ctx.tenant);
    if target.Err? {
      return Failure(target.error);
    }
    var mapped := w.mapInput(path, def, attempt, ctx);
    if mapped.Err? {
      return Failure(External(mapped.error));
    }
    outcome := RunChild(w, target.value, mapped.value, ctx.tenant, ctx.depth + 1, path + [(def.id, attempt)]);
  }

  /** Runs the child and reports its status and context; a failed child is reported like any other. */
  method RunChild(w: World, wf: Workflow, trigger: nat, tenant: Id, depth: nat, path: CallPath) returns (outcome: Outcome)
    ensures var run := Start(w, wf, trigger, tenant, depth, path);
      outcome == if run.None? then Failure(InvalidDefinition) else Success(SubRun(run.value.exec.status, run.value.exec.context))
    decreases Left(w, depth), 10
  {
    var child := StartExecution(w, wf, trigger, tenant, depth, path);
    if child.Err? {
      return Failure(InvalidDefinition);
    }
    return Success(SubRun(child.value.exec.status, child.value.exec.context));
  }

  lemma StartIsUntouched(plan: Plan, trigger: nat, tenant: Id, depth: nat)
    requires ValidPlan(plan)
    ensures Untouched(plan, StartState(plan, trigger, tenant, depth).rows, 0)
  {
    forall n | n in plan.order[0..] ensures n in plan.defs {
      assert n in Elems(plan.order);
    }
  }

  lemma NoRounds(e: Oracle, plan: Plan, st0: RunState)
    requires ValidPlan(plan) && st0.rows.Keys == plan.defs.Keys
    ensures RunTo(e, plan, st0, 0) == st0
  {
  }

  lemma NextState(e: Oracle, plan: Plan, st0: RunState, i: nat)
    requires ValidPlan(plan) && i < |plan.order| && st0.rows.Keys == plan.defs.Keys
    requires !RunTo(e, plan, st0, i).exec.status.ExecFailed?
    ensures RunTo(e, plan, st0, i + 1) == Process(e, plan, i, RunTo(e, plan, st0, i))
  {
  }

  lemma {:induction false} FailedStays(e: Oracle, plan: Plan, st0: RunState, i: nat, n: nat)
    requires ValidPlan(plan) && i <= n <= |plan.order| && st0.rows.Keys == plan.defs.Keys
    requires RunTo(e, plan, st0, i).exec.status.ExecFailed?
    ensures RunTo(e, plan, st0, n) == RunTo(e, plan, st0, i)
  {
    if i < n {
      FailedStays(e, plan, st0, i, n - 1);
    }
  }

  /** Creates one pending row per step. */
  method CreateStepRows(steps: seq<StepDef>) returns (rows: map<Id, StepRow>)
    ensures rows == map n | n in DefsOf(steps) :: InitialRow(DefsOf(steps)[n])
  {
    rows := map[];
    var i := 0;
    while i < |steps|
      invariant 0 <= i <= |steps|
      invariant rows == map n | n in DefsOf(steps[..i]) :: InitialRow(DefsOf(steps[..i])[n])
    {
      assert steps[..i+1][..i] == steps[..i];
      rows := rows[steps[i].id := InitialRow(steps[i])];
      i := i + 1;
    }
    assert steps[..|steps|] == steps;
  }

  /** Step definitions by id. */
  method IndexSteps(steps: seq<StepDef>) returns (defs: map<Id, StepDef>)
    ensures defs == DefsOf(steps)
  {
    defs := map[];
    var i := 0;
    while i < |steps|
      invariant 0 <= i <= |steps|
      invariant defs == DefsOf(steps[..i])
    {
      assert steps[..i+1][..i] == steps[..i];
      defs := defs[steps[i].id := steps[i]];
      i := i + 1;
    }
    assert steps[..|steps|] == steps;
  }

  /** Parses the definition, creates the rows and runs the steps; raises only when the definition is not accepted. */
  method StartExecution(w: World, wf: Workflow, trigger: nat, tenant: Id, depth: nat, path: CallPath)
    returns (r: Result<Execution, Parser.ParseError>)
    ensures r.Ok? <==> Start(w, wf, trigger, tenant, depth, path).Some?
    ensures r.Ok? ==> fresh(r.value) && r.value.Shows(Start(w, wf, trigger, tenant, depth, path).value)
    decreases Left(w, depth), 9
  {
    var parsed := Parser.ParseWorkflowDefinition(wf.steps, w.maxSteps);
    if parsed.Err? {
      return Err(parsed.error);
    }
    var run := new Execution(trigger);
    PlanIsValid(parsed.value);
    var raised := run.Prepare(parsed.value, tenant, depth);
    raised := run.ExecuteDag(w, path, parsed.value);
    return Ok(run);
  }
}
