/**
 Step executors, and in particular the sub-workflow step, which starts another run one level deeper.
 The recursion is well founded because the nesting depth is limited.
 */
module Nested {
  import opened Common
  import opened Definitions
  import opened Status
  import opened Engine
  import opened Planning
  import Parser

  datatype Workflow = Workflow(id: Id, tenant: Id, active: bool, steps: seq<RawStep>)

  /** The step and attempt of every enclosing sub-workflow call; it tells all executor calls apart. */
  type CallPath = seq<(Id, nat)>

  /**
   What the runs cannot decide themselves: the limits, the stored workflows, and the answers of the
   outside world to each executor call, each rendered expression and each input mapping.
   */
  datatype World = World(
    maxSteps: nat, maxDepth: nat, workflows: map<Id, Workflow>,
    leaf: (CallPath, StepDef, nat, Context) -> Outcome,
    render: (CallPath, StepDef, nat, Context) -> Result<string, nat>,
    mapInput: (CallPath, StepDef, nat, Context) -> Result<nat, nat>)

  // ---- The condition step ----

  /** What strip() takes off, as far as ASCII goes. */
  predicate IsSpace(c: char) {
    c == ' ' || '\t' <= c <= '\r' || 28 <= c as int < 32
  }

  function StripLeft(s: string): string {
    if s != "" && IsSpace(s[0]) then StripLeft(s[1..]) else s
  }

  function StripRight(s: string): string {
    if s != "" && IsSpace(s[|s|-1]) then StripRight(s[..|s|-1]) else s
  }

  predicate EvaluateTruthiness(value: string) {
    value != "" && LowerAll(StripRight(StripLeft(value))) !in {"", "false", "0", "none", "False", "None"}
  }

  function ConditionOutcome(def: StepDef, rendered: Result<string, nat>): Outcome {
    if !def.config.hasExpression then Failure(StepConfigError)
    else match rendered
      case Err(code) => Failure(External(code))
      case Ok(text) =>
        if EvaluateTruthiness(text) then Success(Branch(true, def.config.trueBranch))
        else Success(Branch(false, def.config.falseBranch))
  }

  predicate AllSpace(s: string) {
    forall i :: 0 <= i < |s| ==> 9 <= s[i] as int <= 13 || 28 <= s[i] as int <= 32
  }

  lemma {:induction false} StripLeftSplits(s: string) returns (l: string)
    ensures s == l + StripLeft(s) && AllSpace(l)
  {
    if s != "" && IsSpace(s[0]) {
      var rest := StripLeftSplits(s[1..]);
      l := [s[0]] + rest;
    } else {
      l := "";
    }
  }

  lemma {:induction false} StripRightSplits(s: string) returns (r: string)
    ensures s == StripRight(s) + r && AllSpace(r)
  {
    if s != "" && IsSpace(s[|s|-1]) {
      var rest := StripRightSplits(s[..|s|-1]);
      r := rest + [s[|s|-1]];
    } else {
      r := "";
    }
  }

  lemma {:induction false} StripLeftKeeps(l: string, m: string)
    requires AllSpace(l) && (m == "" || !IsSpace(m[0]))
    ensures StripLeft(l + m) == m
  {
    if l == "" {
      assert l + m == m;
    } else {
      assert (l + m)[1..] == l[1..] + m;
      StripLeftKeeps(l[1..], m);
    }
  }

  lemma {:induction false} StripRightKeeps(m: string, r: string)
    requires AllSpace(r) && (m == "" || !IsSpace(m[|m|-1]))
    ensures StripRight(m + r) == m
  {
    if r == "" {
      assert m + r == m;
    } else {
      assert (m + r)[..|m + r| - 1] == m + r[..|r|-1];
      StripRightKeeps(m, r[..|r|-1]);
    }
  }

  /** m spells the word, which is in small letters, in any letter case. */
  predicate Spells(m: string, word: string) {
    |m| == |word| && forall i :: 0 <= i < |m| ==> m[i] == word[i] || m[i] as int == word[i] as int - 32
  }

  predicate IsFalseWord(m: string) {
    m == "" || m == "0" || Spells(m, "false") || Spells(m, "none")
  }

  lemma FalseWordHasNoSpace(m: string)
    requires IsFalseWord(m) && m != ""
    ensures !IsSpace(m[0]) && !IsSpace(m[|m|-1])
  {
  }

  lemma LowerSpells(m: string, word: string)
    requires forall i :: 0 <= i < |word| ==> 'a' <= word[i] <= 'z'
    ensures LowerAll(m) == word <==> Spells(m, word)
  {
    if Spells(m, word) {
      forall i | 0 <= i < |m| ensures LowerAll(m)[i] == word[i] {
        assert m[i] == word[i] || m[i] as int == word[i] as int - 32;
      }
    }
    if LowerAll(m) == word {
      forall i | 0 <= i < |m| ensures m[i] == word[i] || m[i] as int == word[i] as int - 32 {
        assert LowerAll(m)[i] == Lower(m[i]);
      }
    }
  }

  /** The comparison in small letters, spelled out. */
  lemma FalseWordIff(m: string)
    ensures LowerAll(m) in {"", "false", "0", "none"} <==> IsFalseWord(m)
  {
    LowerSpells(m, "false");
    LowerSpells(m, "none");
    if |m| == 1 {
      assert LowerAll(m)[0] == Lower(m[0]);
      assert LowerAll(m) == "0" <==> m[0] == '0';
    }
  }

  lemma LowerHasNoCapital(m: string)
    ensures LowerAll(m) != "False" && LowerAll(m) != "None"
  {
    if m != "" {
      assert LowerAll(m)[0] == Lower(m[0]);
    }
  }

  ghost predicate PaddedFalse(value: string, l: string, m: string, r: string) {
    value == l + m + r && AllSpace(l) && AllSpace(r) && IsFalseWord(m)
  }

  function Stripped(value: string): string {
    StripRight(StripLeft(value))
  }

  lemma StripPadded(value: string, l: string, m: string, r: string)
    requires PaddedFalse(value, l, m, r)
    ensures Stripped(value) == m
  {
    if m == "" {
      assert value == l + r && AllSpace(value) && value + "" == value;
      StripLeftKeeps(value, "");
    } else {
      FalseWordHasNoSpace(m);
      assert value == l + (m + r);
      StripLeftKeeps(l, m + r);
      StripRightKeeps(m, r);
    }
  }

  lemma StripPads(value: string)
    requires IsFalseWord(Stripped(value))
    ensures exists l, m, r :: PaddedFalse(value, l, m, r)
  {
    hide IsFalseWord, AllSpace, StripLeft, StripRight;
    var l := StripLeftSplits(value);
    var r := StripRightSplits(StripLeft(value));
    assert value == l + (Stripped(value) + r) == l + Stripped(value) + r;
    assert PaddedFalse(value, l, Stripped(value), r);
  }

  lemma FalseIfStripped(value: string)
    ensures !EvaluateTruthiness(value) <==> IsFalseWord(Stripped(value))
  {
    FalseWordIff(Stripped(value));
    LowerHasNoCapital(Stripped(value));
  }

  /**
   A rendered text is false exactly when it is one of four words, in any letter case, with space around it
   or not. Two of the six values that the code compares with never occur.
   */
  lemma TruthinessIff(value: string)
    ensures !EvaluateTruthiness(value) <==> exists l, m, r :: PaddedFalse(value, l, m, r)
  {
    hide EvaluateTruthiness, Stripped, AllSpace, IsFalseWord;
    FalseIfStripped(value);
    if exists l, m, r :: PaddedFalse(value, l, m, r) {
      var l, m, r :| PaddedFalse(value, l, m, r);
      StripPadded(value, l, m, r);
    }
    if IsFalseWord(Stripped(value)) {
      StripPads(value);
    }
  }

  /**
   A condition takes the branch that the rendered text decides, and the orchestrator rules out exactly the
   other one; without an expression, or when it cannot be rendered, the step fails.
   */
  lemma ConditionRulesOutOtherBranch(def: StepDef, rendered: Result<string, nat>)
    ensures var outcome := ConditionOutcome(def, rendered);
      && (outcome.Success? <==> def.config.hasExpression && rendered.Ok?)
      && (outcome.Success? ==>
            var holds := !exists l, m, r :: PaddedFalse(rendered.value, l, m, r);
            && outcome.output == Branch(holds, if holds then def.config.trueBranch else def.config.falseBranch)
            && NotTaken(def, outcome.output) == Elems(if holds then def.config.falseBranch else def.config.trueBranch))
  {
    if rendered.Ok? {
      TruthinessIff(rendered.value);
    }
  }

  // ---- The mutual recursion ----

  function Left(w: World, depth: nat): nat {
    if depth <= w.maxDepth then w.maxDepth - depth else 0
  }

  ghost function Start(w: World, wf: Workflow, trigger: nat, tenant: Id, depth: nat, path: CallPath): Option<RunState>
    decreases Left(w, depth), 3
  {
    if Parser.Accepted(wf.steps, w.maxSteps) then
      PlanIsValid(Parser.StepsOf(wf.steps));
      Some(RunDag(Executor(w, depth, path), PlanOf(Parser.StepsOf(wf.steps)), trigger, tenant, depth))
    else None
  }

  /** The executors as a run at this depth sees them. */
  ghost function Executor(w: World, depth: nat, path: CallPath): Oracle
    decreases Left(w, depth), 2
  {
    (def: StepDef, attempt: nat, ctx: Context) => RunStep(w, depth, path, def, attempt, ctx)
  }

  ghost function RunStep(w: World, depth: nat, path: CallPath, def: StepDef, attempt: nat, ctx: Context): Reply
    decreases Left(w, depth), 1
  {
    match def.kind
    case Condition => Reply(ConditionOutcome(def, w.render(path, def, attempt, ctx)), 0, 0)
    case SubWorkflow => RunSubWorkflow(w, depth, path, def, attempt, ctx)
    case _ => Reply(w.leaf(path, def, attempt, ctx), 0, 0)
  }

  function Refuse(fault: Fault): Reply {
    Reply(Failure(fault), 0, 0)
  }

  /** The guards of the sub-workflow step, in order. */
  function TargetOf(w: World, depth: nat, def: StepDef, tenant: Id): Result<Workflow, Fault> {
    if def.config.target.None? then Err(StepConfigError)
    else if depth >= w.maxDepth then Err(DepthExceeded)
    else if def.config.target.value !in w.workflows then Err(NotFound)
    else if w.workflows[def.config.target.value].tenant != tenant then Err(NotFound)
    else if !w.workflows[def.config.target.value].active then Err(Inactive)
    else Ok(w.workflows[def.config.target.value])
  }

  ghost function RunSubWorkflow(w: World, depth: nat, path: CallPath, def: StepDef, attempt: nat, ctx: Context): Reply
    decreases Left(w, depth), 0
  {
    match TargetOf(w, depth, def, ctx.tenant)
    case Err(fault) => Refuse(fault)
    case Ok(wf) =>
      match w.mapInput(path, def, attempt, ctx)
      case Err(code) => Refuse(External(code))
      case Ok(trigger) =>
        match Start(w, wf, trigger, ctx.tenant, depth + 1, path + [(def.id, attempt)])
        case None => Refuse(InvalidDefinition)
        case Some(r) => Reply(Success(SubRun(r.exec.status, r.exec.context)), r.cost, r.deepest)
  }

  // ---- How much work nested runs can cause ----

  /** s * a, by repeated addition. */
  function Times(s: nat, a: nat): nat {
    if s == 0 then 0 else Times(s - 1, a) + a
  }

  lemma {:induction false} TimesIsProduct(s: nat, a: nat)
    ensures Times(s, a) == s * a
  {
    if s > 0 {
      TimesIsProduct(s - 1, a);
    }
  }

  /** What `levels` levels of nesting can cost: each of s steps makes a calls and starts one child. */
  ghost function Budget(s: nat, a: nat, levels: nat): nat {
    if levels == 0 then 0 else Times(s, a + Budget(s, a, levels - 1))
  }

  ghost function Pow(n: nat, k: nat): nat {
    if k == 0 then 1 else n * Pow(n, k - 1)
  }

  /** n + n^2 + ... + n^k */
  ghost function GeometricSum(n: nat, k: nat): nat {
    if k == 0 then 0 else GeometricSum(n, k - 1) + Pow(n, k)
  }

  lemma Distribute(n: nat, x: nat, y: nat)
    ensures n * (1 + (x + y)) == n * (1 + x) + n * y
  {
  }

  lemma {:induction false} GeometricStep(n: nat, k: nat)
    ensures GeometricSum(n, k + 1) == n * (1 + GeometricSum(n, k))
  {
    if k == 0 {
      assert Pow(n, 1) == n * Pow(n, 0);
    } else {
      GeometricStep(n, k - 1);
      Distribute(n, GeometricSum(n, k - 1), Pow(n, k));
    }
  }

  lemma BudgetUnfolds(s: nat, a: nat, levels: nat)
    ensures Budget(s, a, levels + 1) == Times(s, a + Budget(s, a, levels))
  {
  }

  lemma Factor(s: nat, a: nat, x: nat)
    ensures s * (a + a * x) == a * (s * (1 + x))
  {
  }

  lemma {:induction false} BudgetIsGeometric(s: nat, a: nat, k: nat)
    ensures Budget(s, a, k) == a * GeometricSum(s, k)
  {
    hide Times, Pow;
    if k > 0 {
      var j: nat := k - 1;
      BudgetIsGeometric(s, a, j);
      GeometricStep(s, j);
      TimesIsProduct(s, a + Budget(s, a, j));
      Factor(s, a, GeometricSum(s, j));
    }
  }

  /** All replies cost at most k nested calls and reach at most depth d, and failures cost nothing. */
  ghost predicate Bounded(exec: Oracle, k: nat, d: nat) {
    forall def, a, ctx :: exec(def, a, ctx).cost <= k && exec(def, a, ctx).deepest <= d
      && (exec(def, a, ctx).outcome.Failure? ==> exec(def, a, ctx).cost == 0)
  }

  lemma MulMono(a: nat, b: nat, c: nat)
    requires a <= b
    ensures a * c <= b * c
  {
  }

  /** However often a step is tried, only its last attempt can start a child. */
  lemma {:induction false} RetryBound(exec: Oracle, def: StepDef, pos: nat, ctx: Context, row: StepRow, from: nat, k: nat, d: nat)
    requires Bounded(exec, k, d) && from <= row.maxAttempts
    ensures var t := TryFrom(exec, def, pos, ctx, row, from);
      t.cost <= row.maxAttempts - from + k && t.deepest <= d
    decreases row.maxAttempts - from
  {
    if from < row.maxAttempts {
      var reply := exec(def, from + 1, ctx);
      if reply.outcome.Failure? {
        RetryBound(exec, def, pos, ctx, Move(Begin(row, from + 1), Failed).(error := Some(reply.outcome.fault)), from + 1, k, d);
      }
    }
  }

  ghost predicate AttemptsWithin(defs: map<Id, StepDef>, a: nat) {
    forall n :: n in defs ==> MaxAttempts(defs[n]) <= a
  }

  ghost predicate RowsWithin(rows: map<Id, StepRow>, a: nat) {
    forall n :: n in rows ==> rows[n].maxAttempts <= a
  }

  lemma {:induction false} RetryKeepsLimit(exec: Oracle, def: StepDef, pos: nat, ctx: Context, row: StepRow, from: nat)
    ensures TryFrom(exec, def, pos, ctx, row, from).row.maxAttempts == row.maxAttempts
    decreases row.maxAttempts - from
  {
    if from < row.maxAttempts && exec(def, from + 1, ctx).outcome.Failure? {
      var fault := exec(def, from + 1, ctx).outcome.fault;
      RetryKeepsLimit(exec, def, pos, ctx, Move(Begin(row, from + 1), Failed).(error := Some(fault)), from + 1);
    }
  }

  /** One round adds at most a attempts and the k calls of one child. */
  lemma RoundBound(exec: Oracle, plan: Plan, i: nat, st: RunState, a: nat, k: nat, c: nat, d: nat)
    requires ValidPlan(plan) && i < |plan.order| && st.rows.Keys == plan.defs.Keys
    requires Bounded(exec, k, d) && RowsWithin(st.rows, a) && c == a + k
    ensures var r := Process(exec, plan, i, st);
      r.cost <= st.cost + c && st.deepest <= r.deepest <= MaxNat(st.deepest, d) && RowsWithin(r.rows, a)
  {
    var n := plan.order[i];
    assert n in Elems(plan.order);
    var row := st.rows[n];
    RetryBound(exec, plan.defs[n], i, st.exec.context, row, 0, k, d);
    RetryKeepsLimit(exec, plan.defs[n], i, st.exec.context, row, 0);
  }

  lemma OneMore(j: nat, c: nat)
    ensures (j + 1) * c == j * c + c
  {
  }

  lemma {:induction false} RunBound(exec: Oracle, plan: Plan, st0: RunState, i: nat, a: nat, k: nat, c: nat, d: nat)
    requires ValidPlan(plan) && i <= |plan.order| && st0.rows.Keys == plan.defs.Keys
    requires Bounded(exec, k, d) && RowsWithin(st0.rows, a) && c == a + k
    ensures var st := RunTo(exec, plan, st0, i);
      st.cost <= st0.cost + i * c && st0.deepest <= st.deepest <= MaxNat(st0.deepest, d) && RowsWithin(st.rows, a)
  {
    if i > 0 {
      var j: nat := i - 1;
      RunBound(exec, plan, st0, j, a, k, c, d);
      OneMore(j, c);
      RoundBound(exec, plan, j, RunTo(exec, plan, st0, j), a, k, c, d);
    }
  }

  /** At most s steps, of at most a attempts each. */
  ghost predicate SizeWithin(wf: Workflow, s: nat, a: nat) {
    |wf.steps| <= s && forall i :: 0 <= i < |wf.steps| && wf.steps[i].WellTyped? ==> MaxAttempts(wf.steps[i].step) <= a
  }

  ghost predicate SizesWithin(w: World, s: nat, a: nat) {
    forall id :: id in w.workflows ==> SizeWithin(w.workflows[id], s, a)
  }

  lemma PlanWithin(wf: Workflow, maxSteps: nat, s: nat, a: nat)
    requires Parser.Accepted(wf.steps, maxSteps) && SizeWithin(wf, s, a)
    ensures var plan := PlanOf(Parser.StepsOf(wf.steps));
      ValidPlan(plan) && |plan.order| <= s && AttemptsWithin(plan.defs, a)
  {
    var steps := Parser.StepsOf(wf.steps);
    PlanIsValid(steps);
    DefsOfSteps(steps);
    forall n | n in DefsOf(steps) ensures MaxAttempts(DefsOf(steps)[n]) <= a {
      var st :| st in steps && st.id == n;
      var i :| 0 <= i < |steps| && steps[i] == st;
    }
  }

  lemma RunWithin(exec: Oracle, plan: Plan, trigger: nat, tenant: Id, depth: nat, s: nat, a: nat, k: nat, d: nat)
    requires ValidPlan(plan) && Bounded(exec, k, d) && |plan.order| <= s && AttemptsWithin(plan.defs, a) && depth <= d
    ensures var r := RunDag(exec, plan, trigger, tenant, depth);
      r.cost <= Times(s, a + k) && depth <= r.deepest <= d
  {
    hide Times, RunTo, Bounded, ValidPlan;
    var st0 := StartState(plan, trigger, tenant, depth);
    var c := a + k;
    RunBound(exec, plan, st0, |plan.order|, a, k, c, d);
    MulMono(|plan.order|, s, c);
    TimesIsProduct(s, c);
  }

  /** A run, if there is one, makes at most `calls` executor calls and starts no execution outside the given depths. */
  ghost predicate Within(r: Option<RunState>, calls: nat, shallowest: nat, deepest: nat) {
    r.Some? ==> r.value.cost <= calls && shallowest <= r.value.deepest <= deepest
  }

  ghost predicate BoundedAt(w: World, depth: nat, path: CallPath, k: nat) {
    Bounded(Executor(w, depth, path), k, w.maxDepth)
  }

  /** An accepted definition runs, each of its steps with at most a own calls and k nested ones. */
  lemma StartWithin(w: World, wf: Workflow, trigger: nat, tenant: Id, depth: nat, path: CallPath, s: nat, a: nat, k: nat)
    requires depth <= w.maxDepth && BoundedAt(w, depth, path, k) && SizeWithin(wf, s, a)
    ensures Within(Start(w, wf, trigger, tenant, depth, path), Times(s, a + k), depth, w.maxDepth)
  {
    if Parser.Accepted(wf.steps, w.maxSteps) {
      PlanWithin(wf, w.maxSteps, s, a);
      RunWithin(Executor(w, depth, path), PlanOf(Parser.StepsOf(wf.steps)), trigger, tenant, depth, s, a, k, w.maxDepth);
    }
  }

  ghost predicate AllBoundedAt(w: World, depth: nat, k: nat) {
    forall path: CallPath :: BoundedAt(w, depth, path, k)
  }

  /** The run that a sub-workflow call starts, when it starts one. */
  ghost function ChildOf(w: World, depth: nat, path: CallPath, def: StepDef, attempt: nat, ctx: Context): Option<RunState> {
    if Launches(w, depth, path, def, attempt, ctx) then
      Start(w, w.workflows[def.config.target.value], w.mapInput(path, def, attempt, ctx).value, ctx.tenant,
            depth + 1, path + [(def.id, attempt)])
    else None
  }

  lemma ReplyFromChild(w: World, depth: nat, path: CallPath, def: StepDef, attempt: nat, ctx: Context, reply: Reply, b: nat)
    requires reply == RunSubWorkflow(w, depth, path, def, attempt, ctx)
    requires Within(ChildOf(w, depth, path, def, attempt, ctx), b, depth + 1, w.maxDepth)
    ensures reply.cost <= b && reply.deepest <= w.maxDepth && (reply.outcome.Failure? ==> reply.cost == 0)
  {
    if Launches(w, depth, path, def, attempt, ctx) {
      var _, _, _ := LaunchedReply(w, depth, path, def, attempt, ctx);
    } else {
      RefusedReply(w, depth, path, def, attempt, ctx);
    }
  }

  lemma SizeOfTarget(w: World, id: Id, s: nat, a: nat)
    requires SizesWithin(w, s, a) && id in w.workflows
    ensures SizeWithin(w.workflows[id], s, a)
  {
  }

  lemma LaunchFacts(w: World, depth: nat, path: CallPath, def: StepDef, attempt: nat, ctx: Context)
    ensures if Launches(w, depth, path, def, attempt, ctx) then
        && def.config.target.Some? && def.config.target.value in w.workflows && w.mapInput(path, def, attempt, ctx).Ok?
        && ChildOf(w, depth, path, def, attempt, ctx)
           == Start(w, w.workflows[def.config.target.value], w.mapInput(path, def, attempt, ctx).value, ctx.tenant,
                    depth + 1, path + [(def.id, attempt)])
      else forall b, d, e :: Within(ChildOf(w, depth, path, def, attempt, ctx), b, d, e)
  {
  }

  /** Where children are bounded by k calls, a sub-workflow call is bounded by what one run of them can cost. */
  lemma ChildOfWithin(w: World, depth: nat, path: CallPath, s: nat, a: nat, k: nat, def: StepDef, attempt: nat, ctx: Context)
    requires depth < w.maxDepth && SizesWithin(w, s, a)
    requires BoundedAt(w, depth + 1, path + [(def.id, attempt)], k)
    ensures Within(ChildOf(w, depth, path, def, attempt, ctx), Times(s, a + k), depth + 1, w.maxDepth)
  {
    hide *;
    LaunchFacts(w, depth, path, def, attempt, ctx);
    if Launches(w, depth, path, def, attempt, ctx) {
      SizeOfTarget(w, def.config.target.value, s, a);
      StartWithin(w, w.workflows[def.config.target.value], w.mapInput(path, def, attempt, ctx).value, ctx.tenant, depth + 1,
                  path + [(def.id, attempt)], s, a, k);
    }
  }

  lemma ExecutorWithin(w: World, depth: nat, path: CallPath, s: nat, a: nat, k: nat, b: nat)
    requires depth < w.maxDepth && SizesWithin(w, s, a) && b == Times(s, a + k)
    requires AllBoundedAt(w, depth + 1, k)
    ensures BoundedAt(w, depth, path, b)
  {
    var exec := Executor(w, depth, path);
    forall def, att, ctx ensures exec(def, att, ctx).cost <= b && exec(def, att, ctx).deepest <= w.maxDepth
      && (exec(def, att, ctx).outcome.Failure? ==> exec(def, att, ctx).cost == 0)
    {
      assert exec(def, att, ctx) == RunStep(w, depth, path, def, att, ctx);
      if def.kind.SubWorkflow? {
        assert BoundedAt(w, depth + 1, path + [(def.id, att)], k);
        ChildOfWithin(w, depth, path, s, a, k, def, att, ctx);
        ReplyFromChild(w, depth, path, def, att, ctx, exec(def, att, ctx), b);
      }
    }
  }

  /** At the depth limit no executor call starts anything. */
  lemma ExecutorAtLimit(w: World, path: CallPath)
    ensures BoundedAt(w, w.maxDepth, path, 0)
  {
    var exec := Executor(w, w.maxDepth, path);
    forall def, att, ctx ensures exec(def, att, ctx).cost <= 0 && exec(def, att, ctx).deepest <= w.maxDepth {
      assert exec(def, att, ctx) == RunStep(w, w.maxDepth, path, def, att, ctx);
      if def.kind.SubWorkflow? {
        RefusedReply(w, w.maxDepth, path, def, att, ctx);
      }
    }
  }

  lemma {:induction false} ExecutorIsBounded(w: World, depth: nat, path: CallPath, s: nat, a: nat, levels: nat)
    requires depth + levels == w.maxDepth && SizesWithin(w, s, a)
    ensures BoundedAt(w, depth, path, Budget(s, a, levels))
    decreases levels
  {
    if levels == 0 {
      ExecutorAtLimit(w, path);
    } else {
      var fewer: nat := levels - 1;
      var k := Budget(s, a, fewer);
      var next := depth + 1;
      forall below: CallPath ensures BoundedAt(w, next, below, k) {
        ExecutorIsBounded(w, next, below, s, a, fewer);
      }
      ExecutorWithin(w, depth, path, s, a, k, Times(s, a + k));
      BudgetUnfolds(s, a, fewer);
    }
  }

  /**
   Main theorem. Even when workflows refer to themselves, nesting stops: no execution is deeper than
   the limit, and a run makes at most a * (s + s^2 + ...) executor calls, with one power for each level
   from its own depth down to the limit.
   */
  lemma NestingIsBounded(w: World, wf: Workflow, trigger: nat, tenant: Id, depth: nat, path: CallPath, s: nat, a: nat)
    requires depth <= w.maxDepth && SizesWithin(w, s, a) && SizeWithin(wf, s, a)
    ensures Within(Start(w, wf, trigger, tenant, depth, path), a * GeometricSum(s, w.maxDepth - depth + 1), depth, w.maxDepth)
  {
    hide *;
    var levels: nat := w.maxDepth - depth;
    GeometricBudget(s, a, levels);
    ExecutorIsBounded(w, depth, path, s, a, levels);
    StartWithin(w, wf, trigger, tenant, depth, path, s, a, Budget(s, a, levels));
  }

  lemma GeometricBudget(s: nat, a: nat, levels: nat)
    ensures Times(s, a + Budget(s, a, levels)) == a * GeometricSum(s, levels + 1)
  {
    BudgetUnfolds(s, a, levels);
    BudgetIsGeometric(s, a, levels + 1);
  }

  lemma PowStep(n: nat, k: nat)
    requires k >= 1
    ensures Pow(n, k) == n * Pow(n, k - 1)
  {
  }

  lemma {:induction false} PowOfProduct(s: nat, a: nat, k: nat)
    requires a >= 1
    ensures Pow(s, k) <= Pow(s * a, k) && (k >= 1 ==> a * Pow(s, k) <= Pow(s * a, k))
  {
    if k >= 1 {
      PowOfProduct(s, a, k - 1);
      PowProductStep(s, a, k, Pow(s, k - 1), Pow(s * a, k - 1));
    }
  }

  lemma PowProductStep(s: nat, a: nat, k: nat, x: nat, y: nat)
    requires a >= 1 && k >= 1 && x == Pow(s, k - 1) && y == Pow(s * a, k - 1) && x <= y
    ensures Pow(s, k) <= a * Pow(s, k) <= Pow(s * a, k)
  {
    hide Pow;
    PowStep(s, k);
    PowStep(s * a, k);
    Associate(a, s, x);
    Scale(s * a, x, y);
    Grow(a, s * x);
  }

  lemma Associate(a: nat, s: nat, x: nat)
    ensures a * (s * x) == (s * a) * x
  {
  }

  lemma Grow(a: nat, n: nat)
    requires a >= 1
    ensures n <= a * n
  {
  }

  lemma Scale(n: nat, x: nat, y: nat)
    requires x <= y
    ensures n * x <= n * y
  {
  }

  lemma Spread(n: nat, x: nat, y: nat)
    ensures n * (x + y) == n * x + n * y
  {
  }

  /** The count is no more than one power of s * a calls for each level. */
  lemma {:induction false} SharperThanProducts(s: nat, a: nat, k: nat)
    ensures a * GeometricSum(s, k) <= GeometricSum(s * a, k)
  {
    if k > 0 && a > 0 {
      SharperThanProducts(s, a, k - 1);
      PowOfProduct(s, a, k);
      Spread(a, GeometricSum(s, k - 1), Pow(s, k));
    }
  }

  /** The sub-workflow step gets as far as starting the child run. */
  ghost predicate Launches(w: World, depth: nat, path: CallPath, def: StepDef, attempt: nat, ctx: Context) {
    && def.config.target.Some? && depth < w.maxDepth && def.config.target.value in w.workflows
    && var wf := w.workflows[def.config.target.value];
    && wf.tenant == ctx.tenant && wf.active
    && w.mapInput(path, def, attempt, ctx).Ok?
    && Parser.Accepted(wf.steps, w.maxSteps)
  }

  /** The reply of a started child: always a success, carrying the child's status and context. */
  lemma LaunchedReply(w: World, depth: nat, path: CallPath, def: StepDef, attempt: nat, ctx: Context)
    returns (id: Id, trigger: nat, r: Option<RunState>)
    requires Launches(w, depth, path, def, attempt, ctx)
    ensures id in w.workflows && r.Some?
    ensures r == Start(w, w.workflows[id], trigger, ctx.tenant, depth + 1, path + [(def.id, attempt)])
    ensures RunSubWorkflow(w, depth, path, def, attempt, ctx)
         == Reply(Success(SubRun(r.value.exec.status, r.value.exec.context)), r.value.cost, r.value.deepest)
  {
    id, trigger := def.config.target.value, w.mapInput(path, def, attempt, ctx).value;
    r := Start(w, w.workflows[id], trigger, ctx.tenant, depth + 1, path + [(def.id, attempt)]);
  }

  lemma RefusedReply(w: World, depth: nat, path: CallPath, def: StepDef, attempt: nat, ctx: Context)
    requires !Launches(w, depth, path, def, attempt, ctx)
    ensures var reply := RunSubWorkflow(w, depth, path, def, attempt, ctx);
      reply.outcome.Failure? && reply.cost == 0 && reply.deepest == 0
  {
  }

  /**
   The sub-workflow step succeeds exactly when it gets to start the child run: a child that runs and
   fails is still a successful step of its parent, and at the depth limit no child is started.
   */
  lemma SubWorkflowSucceedsIffLaunched(w: World, depth: nat, path: CallPath, def: StepDef, attempt: nat, ctx: Context)
    requires def.kind.SubWorkflow?
    ensures Executor(w, depth, path)(def, attempt, ctx).outcome.Success? <==> Launches(w, depth, path, def, attempt, ctx)
  {
    assert Executor(w, depth, path)(def, attempt, ctx) == RunStep(w, depth, path, def, attempt, ctx);
    assert RunStep(w, depth, path, def, attempt, ctx) == RunSubWorkflow(w, depth, path, def, attempt, ctx);
    if Launches(w, depth, path, def, attempt, ctx) {
      var _, _, _ := LaunchedReply(w, depth, path, def, attempt, ctx);
    } else {
      RefusedReply(w, depth, path, def, attempt, ctx);
    }
  }
}
