/**
 The meaning of one run: a function from the answers of the step executors to the rows and the
 context that the run leaves behind. The orchestrator's loops are proved equal to it.
 */
module Engine {
  import opened Common
  import opened Definitions
  import opened Status

  // ---- Data ----

  datatype ResultField = Missing | Flag(flag: bool) | Text(text: string)

  datatype Output =
    | Data(result: ResultField, payload: nat)
    | Branch(taken: bool, branchSteps: seq<Id>)
    | SubRun(status: ExecStatus, context: Context)

  datatype Context = Context(trigger: nat, steps: map<Id, Output>, depth: nat, tenant: Id)

  datatype Fault =
    | StepConfigError | DepthExceeded | NotFound | Inactive | InvalidDefinition | InvalidTransition | Stale
    | External(code: nat)

  datatype Outcome = Success(output: Output) | Failure(fault: Fault)

  /** What a call of a step executor brings back: the outcome, and the nested work it caused. */
  datatype Reply = Reply(outcome: Outcome, cost: nat, deepest: nat)

  /** Executors see the step, the attempt number and the shared context; they may answer anything. */
  type Oracle = (StepDef, nat, Context) -> Reply

  datatype StepRow = StepRow(
    status: StepStatus, attempt: nat, maxAttempts: nat, output: Option<Output>, error: Option<Fault>,
    trail: seq<StepStatus>)

  datatype ExecRow = ExecRow(status: ExecStatus, failedStep: Option<Id>, context: Context, trail: seq<ExecStatus>)

  /** One executor call: the step's position and id, the attempt, and the `steps` input it was given. */
  datatype Call = Call(pos: nat, step: Id, attempt: nat, seen: map<Id, Output>)

  datatype RunState = RunState(
    exec: ExecRow, rows: map<Id, StepRow>, skipped: set<Id>, calls: seq<Call>, cost: nat, deepest: nat)

  /** Step definitions by id, and the order of execution. */
  datatype Plan = Plan(defs: map<Id, StepDef>, order: seq<Id>)

  ghost predicate ValidPlan(p: Plan) {
    && Distinct(p.order) && Elems(p.order) == p.defs.Keys
    && forall n :: n in p.defs ==> p.defs[n].id == n
  }

  // ---- Condition branches ----

  function Lower(c: char): char {
    if 'A' <= c <= 'Z' then (c as int - 'A' as int + 'a' as int) as char else c
  }

  function LowerAll(s: string): (t: string)
    ensures |t| == |s|
  {
    seq(|s|, i requires 0 <= i < |s| => Lower(s[i]))
  }

  predicate TextIsTrue(s: string) {
    s != "" && LowerAll(s) !in {"false", "0", "none", ""}
  }

  predicate IsTruthy(o: Output) {
    match o
    case Branch(taken, _) => taken
    case Data(Flag(b), _) => b
    case Data(Text(s), _) => TextIsTrue(s)
    case Data(Missing, _) => false
    case SubRun(_, _) => false
  }

  /** The steps a condition with this output rules out. */
  function NotTaken(def: StepDef, output: Output): set<Id> {
    if IsTruthy(output) then Elems(def.config.falseBranch) else Elems(def.config.trueBranch)
  }

  function NewlySkipped(def: StepDef, output: Output): set<Id> {
    if def.kind.Condition? then NotTaken(def, output) else {}
  }

  // ---- One step ----

  function InitialRow(def: StepDef): StepRow {
    StepRow(Pending, 1, MaxAttempts(def), None, None, [Pending])
  }

  function Move(row: StepRow, s: StepStatus): StepRow {
    row.(status := s, trail := row.trail + [s])
  }

  datatype Tried = Tried(row: StepRow, ok: bool, calls: seq<Call>, cost: nat, deepest: nat)

  /** The row just before the executor is called for this attempt. */
  function Begin(row: StepRow, attempt: nat): StepRow {
    var r := row.(attempt := attempt);
    Move(if r.status.Pending? || r.status.Failed? then Move(r, Queued) else r, Running)
  }

  /** The retry loop, entered with `attempt` attempts already made. */
  ghost function TryFrom(exec: Oracle, def: StepDef, pos: nat, ctx: Context, row: StepRow, attempt: nat): (t: Tried)
    ensures t.ok ==> t.row.output.Some?
    decreases row.maxAttempts - attempt
  {
    if attempt >= row.maxAttempts then Tried(row, false, [], 0, 0)
    else
      var a := attempt + 1;
      var started := Begin(row, a);
      var reply := exec(def, a, ctx);
      var call := Call(pos, def.id, a, ctx.steps);
      match reply.outcome
      case Success(output) =>
        Tried(Move(started, Completed).(output := Some(output)), true, [call], reply.cost + 1, reply.deepest)
      case Failure(fault) =>
        var rest := TryFrom(exec, def, pos, ctx, Move(started, Failed).(error := Some(fault)), a);
        rest.(calls := [call] + rest.calls, cost := rest.cost + reply.cost + 1,
              deepest := MaxNat(reply.deepest, rest.deepest))
  }

  // ---- The whole order ----

  ghost function StartState(plan: Plan, trigger: nat, tenant: Id, depth: nat): (st: RunState)
    ensures st.rows.Keys == plan.defs.Keys
  {
    RunState(
      ExecRow(ExecRunning, None, Context(trigger, map[], depth, tenant), [ExecPending, ExecRunning]),
      map n | n in plan.defs :: InitialRow(plan.defs[n]), {}, [], 0, depth)
  }

  /** One round of the main loop. */
  ghost function Process(exec: Oracle, plan: Plan, i: nat, st: RunState): (r: RunState)
    requires ValidPlan(plan) && i < |plan.order| && st.rows.Keys == plan.defs.Keys
    ensures r.rows.Keys == plan.defs.Keys
  {
    var n := plan.order[i];
    assert n in Elems(plan.order);
    if n in st.skipped then
      st.(rows := st.rows[n := Move(st.rows[n], Skipped)])
    else
      var t := TryFrom(exec, plan.defs[n], i, st.exec.context, st.rows[n], 0);
      var s := st.(rows := st.rows[n := t.row], calls := st.calls + t.calls, cost := st.cost + t.cost,
                   deepest := MaxNat(st.deepest, t.deepest));
      if t.ok then
        s.(exec := s.exec.(context := s.exec.context.(steps := s.exec.context.steps[n := t.row.output.value])),
           skipped := s.skipped + NewlySkipped(plan.defs[n], t.row.output.value))
      else
        s.(exec := s.exec.(status := ExecFailed, failedStep := Some(n), trail := s.exec.trail + [ExecFailed]))
  }

  /** A failed run stays as it is; any other goes through the next round. */
  ghost function Advance(exec: Oracle, plan: Plan, i: nat, st: RunState): (r: RunState)
    requires ValidPlan(plan) && i < |plan.order| && st.rows.Keys == plan.defs.Keys
    ensures r.rows.Keys == plan.defs.Keys
  {
    if st.exec.status.ExecFailed? then st else Process(exec, plan, i, st)
  }

  /** The state after i rounds. */
  ghost function RunTo(exec: Oracle, plan: Plan, st0: RunState, i: nat): (r: RunState)
    requires ValidPlan(plan) && i <= |plan.order| && st0.rows.Keys == plan.defs.Keys
    ensures r.rows.Keys == plan.defs.Keys
  {
    if i == 0 then st0 else Advance(exec, plan, i - 1, RunTo(exec, plan, st0, i - 1))
  }

  function Finish(st: RunState): RunState {
    if st.exec.status.ExecFailed? then st
    else st.(exec := st.exec.(status := ExecCompleted, trail := st.exec.trail + [ExecCompleted]))
  }

  ghost function RunDag(exec: Oracle, plan: Plan, trigger: nat, tenant: Id, depth: nat): RunState
    requires ValidPlan(plan)
  {
    Finish(RunTo(exec, plan, StartState(plan, trigger, tenant, depth), |plan.order|))
  }
}
