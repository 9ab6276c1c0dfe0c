/** The bound on nested runs is exact: for every size and depth there are workflows that reach it. */
module NestingIsTight {
  import opened Common
  import opened DepGraph
  import opened Definitions
  import opened Status
  import opened Engine
  import opened Planning
  import opened RunProperties
  import opened Nested
  import MaxDepth
  import Parser

  // ---- Lists of independent steps ----

  function Independent(s: nat, a: Attempts, kind: StepType, target: Id): (steps: seq<StepDef>)
    ensures |steps| == s
    ensures forall i :: 0 <= i < s ==> steps[i] == StepDef(i, kind, Config(false, [], [], Some(target), true), [], Some(a))
  {
    seq(s, i requires 0 <= i < s => StepDef(i, kind, Config(false, [], [], Some(target), true), [], Some(a)))
  }

  function Raw(steps: seq<StepDef>): seq<RawStep> {
    seq(|steps|, i requires 0 <= i < |steps| => WellTyped(steps[i]))
  }

  lemma RawParses(steps: seq<StepDef>)
    ensures Parser.AllWellTyped(Raw(steps)) && Parser.StepsOf(Raw(steps)) == steps
  {
    assert Parser.StepsOf(Raw(steps)) == steps;
  }

  lemma NoEdges(steps: seq<StepDef>)
    requires UniqueIds(steps) && forall i :: 0 <= i < |steps| ==> steps[i].dependsOn == []
    ensures forall m, n :: !Edge(GraphOf(steps), m, n)
  {
    GraphOfUnique(steps);
    GraphOfIsWellFormed(steps);
    var g := GraphOf(steps);
    forall m, n ensures !Edge(g, m, n) {
      if n in g.deps {
        var t :| t in steps && t.id == n;
        var i :| 0 <= i < |steps| && steps[i] == t;
        assert g.deps[n] == steps[i].dependsOn;
      }
    }
  }

  lemma NoEdgesIsShallow(g: Graph)
    requires forall m, n :: !Edge(g, m, n)
    ensures Closed(g) && Acyclic(g) && !MaxDepth.TooDeep(g)
  {
    assert forall n, d :: n in g.deps && d in g.deps[n] ==> Edge(g, d, n);
    RankedIsAcyclic(g, map[]);
    forall n, k: nat | n in g.deps && MaxDepth.ChainOfLength(g, n, k) ensures k <= 1 {
      var p :| MaxDepth.ChainTo(g, p, n) && |p| == k;
      if k >= 2 {
        PathHasEdge(g, p);
      }
    }
  }

  lemma PathHasEdge(g: Graph, p: seq<Id>)
    requires IsPath(g, p) && |p| >= 2
    ensures exists m, n :: Edge(g, m, n)
  {
    assert Edge(g, p[0], p[1]);
  }

  /** Independent steps are accepted, and the plan runs each of them once. */
  lemma IndependentPlan(s: nat, a: Attempts, kind: StepType, target: Id)
    requires s >= 1
    ensures var steps := Independent(s, a, kind, target);
      && Parser.Accepted(Raw(steps), s) && Parser.StepsOf(Raw(steps)) == steps
      && ValidPlan(PlanOf(steps)) && |PlanOf(steps).order| == s
      && forall n :: n in PlanOf(steps).defs ==> PlanOf(steps).defs[n] in steps
  {
    var steps := Independent(s, a, kind, target);
    RawParses(steps);
    NoEdges(steps);
    NoEdgesIsShallow(GraphOf(steps));
    PlanIsValid(steps);
    DefsOfSteps(steps);
    forall n | n in DefsOf(steps) ensures DefsOf(steps)[n] in steps {
      var t :| t in steps && t.id == n;
    }
  }

  // ---- Steps that succeed at their last attempt ----

  /** Every attempt but the last fails at no cost, and the last one costs c. */
  ghost predicate LastAttemptCosts(exec: Oracle, def: StepDef, a: nat, tenant: Id, depth: nat, c: nat) {
    forall n: nat, ctx: Context :: 1 <= n <= a && ctx.tenant == tenant && ctx.depth == depth ==>
      exec(def, n, ctx).cost == (if n == a then c else 0) && (exec(def, n, ctx).outcome.Success? <==> n == a)
  }

  lemma {:induction false} RetryCost(exec: Oracle, def: StepDef, pos: nat, ctx: Context, row: StepRow, from: nat, c: nat)
    requires LastAttemptCosts(exec, def, row.maxAttempts, ctx.tenant, ctx.depth, c) && from < row.maxAttempts
    ensures var t := TryFrom(exec, def, pos, ctx, row, from); t.ok && t.cost == row.maxAttempts - from + c
    decreases row.maxAttempts - from
  {
    var reply := exec(def, from + 1, ctx);
    if reply.outcome.Failure? {
      RetryCost(exec, def, pos, ctx, Move(Begin(row, from + 1), Failed).(error := Some(reply.outcome.fault)), from + 1, c);
    }
  }

  /** All steps take a attempts and none is a condition. */
  ghost predicate Costly(exec: Oracle, plan: Plan, a: nat, tenant: Id, depth: nat, c: nat) {
    forall n :: n in plan.defs ==>
      && MaxAttempts(plan.defs[n]) == a && !plan.defs[n].kind.Condition?
      && LastAttemptCosts(exec, plan.defs[n], a, tenant, depth, c)
  }

  ghost predicate OnTrack(plan: Plan, st: RunState, i: nat, tenant: Id, depth: nat, cost: nat)
    requires ValidPlan(plan) && i <= |plan.order|
  {
    && st.rows.Keys == plan.defs.Keys && Untouched(plan, st.rows, i)
    && !st.exec.status.ExecFailed? && st.skipped == {} && st.cost == cost
    && st.exec.context.tenant == tenant && st.exec.context.depth == depth
  }

  lemma NoRoundsCost(exec: Oracle, plan: Plan, st0: RunState)
    requires ValidPlan(plan) && st0.rows.Keys == plan.defs.Keys
    ensures RunTo(exec, plan, st0, 0) == st0
  {
  }

  lemma NextRound(exec: Oracle, plan: Plan, st0: RunState, j: nat)
    requires ValidPlan(plan) && j < |plan.order| && st0.rows.Keys == plan.defs.Keys
    requires !RunTo(exec, plan, st0, j).exec.status.ExecFailed?
    ensures RunTo(exec, plan, st0, j + 1) == Process(exec, plan, j, RunTo(exec, plan, st0, j))
  {
  }

  lemma RoundCost(exec: Oracle, plan: Plan, st: RunState, i: nat, a: nat, tenant: Id, depth: nat, c: nat, cost: nat)
    requires ValidPlan(plan) && i < |plan.order| && Costly(exec, plan, a, tenant, depth, c) && a >= 1
    requires OnTrack(plan, st, i, tenant, depth, cost)
    ensures OnTrack(plan, Process(exec, plan, i, st), i + 1, tenant, depth, cost + a + c)
  {
    var n := plan.order[i];
    assert n in Elems(plan.order);
    assert n in plan.order[i..];
    RetryCost(exec, plan.defs[n], i, st.exec.context, st.rows[n], 0, c);
    UntouchedShrinks(plan, st.rows, i, Process(exec, plan, i, st).rows[n]);
  }

  lemma {:induction false} RunCost(exec: Oracle, plan: Plan, st0: RunState, i: nat, a: nat, tenant: Id, depth: nat, c: nat)
    requires ValidPlan(plan) && i <= |plan.order| && Costly(exec, plan, a, tenant, depth, c) && a >= 1
    requires OnTrack(plan, st0, 0, tenant, depth, 0)
    ensures OnTrack(plan, RunTo(exec, plan, st0, i), i, tenant, depth, Times(i, a + c))
  {
    hide RunTo, Process, Costly, ValidPlan, Untouched;
    NoRoundsCost(exec, plan, st0);
    if i > 0 {
      var j: nat := i - 1;
      RunCost(exec, plan, st0, j, a, tenant, depth, c);
      NextRound(exec, plan, st0, j);
      RoundCost(exec, plan, RunTo(exec, plan, st0, j), j, a, tenant, depth, c, Times(j, a + c));
    }
  }

  lemma WholeRunCost(exec: Oracle, plan: Plan, trigger: nat, tenant: Id, depth: nat, a: nat, c: nat)
    requires ValidPlan(plan) && Costly(exec, plan, a, tenant, depth, c) && a >= 1
    ensures RunDag(exec, plan, trigger, tenant, depth).cost == Times(|plan.order|, a + c)
  {
    var st0 := StartState(plan, trigger, tenant, depth);
    assert forall n :: n in plan.order[0..] ==> n in Elems(plan.order);
    RunCost(exec, plan, st0, |plan.order|, a, tenant, depth, c);
  }

  // ---- A chain of workflows, each step of which starts the next one ----

  function Level(s: nat, a: Attempts, depth: nat, k: nat): Workflow {
    Workflow(k, 0, true, Raw(StepsAt(s, a, depth, k)))
  }

  /** Leaf steps and input mappings succeed only at the last attempt. */
  function Chain(s: nat, a: Attempts, depth: nat): World {
    World(s, depth, map k | 0 <= k <= depth :: Level(s, a, depth, k),
      (path: CallPath, def: StepDef, n: nat, ctx: Context) => if n == a then Success(Data(Missing, 0)) else Failure(External(0)),
      (path: CallPath, def: StepDef, n: nat, ctx: Context) => Err(0),
      (path: CallPath, def: StepDef, n: nat, ctx: Context) => if n == a then Ok(0) else Err(0))
  }

  lemma ChainSizes(s: nat, a: Attempts, depth: nat)
    ensures Chain(s, a, depth).maxDepth == depth
    ensures SizesWithin(Chain(s, a, depth), s, a) && SizeWithin(Level(s, a, depth, 0), s, a)
  {
  }

  lemma CostOfTop(s: nat, a: Attempts, depth: nat, cost: nat)
    requires CostsAt(s, a, depth, 0, 0, [], cost)
    ensures var r := Start(Chain(s, a, depth), Level(s, a, depth, 0), 0, 0, 0, []); r.Some? && r.value.cost == cost
  {
    hide Start, Chain, Level;
  }

  ghost predicate CostsAt(s: nat, a: Attempts, depth: nat, k: nat, trigger: nat, path: CallPath, cost: nat) {
    var r := Start(Chain(s, a, depth), Level(s, a, depth, k), trigger, 0, k, path);
    r.Some? && r.value.cost == cost
  }

  ghost predicate EveryCostAt(s: nat, a: Attempts, depth: nat, k: nat, cost: nat) {
    forall below: CallPath :: CostsAt(s, a, depth, k, 0, below, cost)
  }

  lemma ChainFacts(s: nat, a: Attempts, depth: nat, k: nat, path: CallPath, def: StepDef, n: nat, ctx: Context)
    ensures var w := Chain(s, a, depth);
      && w.maxDepth == depth
      && (k <= depth ==> k in w.workflows && w.workflows[k] == Level(s, a, depth, k))
      && w.leaf(path, def, n, ctx) == (if n == a then Success(Data(Missing, 0)) else Failure(External(0)))
      && w.mapInput(path, def, n, ctx) == if n == a then Ok(0) else Err(0)
  {
  }

  /** A step of the last level. */
  lemma LeafCost(s: nat, a: Attempts, depth: nat, path: CallPath, def: StepDef, n: nat, ctx: Context)
    requires def.kind.Http?
    ensures var reply := RunStep(Chain(s, a, depth), depth, path, def, n, ctx);
      reply.cost == 0 && (reply.outcome.Success? <==> n == a)
  {
    hide Chain;
    ChainFacts(s, a, depth, 0, path, def, n, ctx);
  }

  /** A step of any other level starts the next one, at its last attempt. */
  lemma ParentCost(s: nat, a: Attempts, depth: nat, k: nat, path: CallPath, def: StepDef, n: nat, ctx: Context, c: nat)
    requires k < depth && def.kind.SubWorkflow? && def.config.target == Some(k + 1) && ctx.tenant == 0
    requires EveryCostAt(s, a, depth, k + 1, c)
    ensures var reply := RunStep(Chain(s, a, depth), k, path, def, n, ctx);
      reply.cost == (if n == a then c else 0) && (reply.outcome.Success? <==> n == a)
  {
    hide Chain, Start;
    ChainFacts(s, a, depth, k + 1, path, def, n, ctx);
    ChildCost(s, a, depth, k + 1, path + [(def.id, n)], c);
  }

  lemma ChildCost(s: nat, a: Attempts, depth: nat, k: nat, path: CallPath, c: nat)
    requires EveryCostAt(s, a, depth, k, c)
    ensures var r := Start(Chain(s, a, depth), Level(s, a, depth, k), 0, 0, k, path); r.Some? && r.value.cost == c
  {
    hide Chain, Start;
    assert CostsAt(s, a, depth, k, 0, path, c);
  }

  /** What the executors of the k-th level cost, given what the next level costs. */
  lemma LevelIsCostly(s: nat, a: Attempts, depth: nat, k: nat, path: CallPath, def: StepDef, c: nat)
    requires s >= 1 && k <= depth
    requires def.kind == (if k < depth then SubWorkflow else Http) && def.config.target == Some(k + 1)
    requires if k < depth then EveryCostAt(s, a, depth, k + 1, c) else c == 0
    ensures LastAttemptCosts(Executor(Chain(s, a, depth), k, path), def, a, 0, k, c)
  {
    hide Chain, EveryCostAt, RunStep;
    var w := Chain(s, a, depth);
    var exec := Executor(w, k, path);
    forall n: nat, ctx: Context | 1 <= n <= a && ctx.tenant == 0 && ctx.depth == k
      ensures exec(def, n, ctx).cost == (if n == a then c else 0) && (exec(def, n, ctx).outcome.Success? <==> n == a)
    {
      assert exec(def, n, ctx) == RunStep(w, k, path, def, n, ctx);
      if k < depth {
        ParentCost(s, a, depth, k, path, def, n, ctx, c);
      } else {
        LeafCost(s, a, depth, path, def, n, ctx);
      }
    }
  }

  function StepsAt(s: nat, a: Attempts, depth: nat, k: nat): seq<StepDef> {
    Independent(s, a, if k < depth then SubWorkflow else Http, k + 1)
  }

  lemma StartOfLevel(s: nat, a: Attempts, depth: nat, k: nat, trigger: nat, path: CallPath)
    requires s >= 1 && k <= depth
    ensures var plan := PlanOf(StepsAt(s, a, depth, k));
      && ValidPlan(plan) && |plan.order| == s
      && (forall n :: n in plan.defs ==> plan.defs[n] in StepsAt(s, a, depth, k))
      && Start(Chain(s, a, depth), Level(s, a, depth, k), trigger, 0, k, path)
         == Some(RunDag(Executor(Chain(s, a, depth), k, path), plan, trigger, 0, k))
  {
    hide RunDag, Executor, PlanOf, Parser.Accepted, ValidPlan;
    IndependentPlan(s, a, if k < depth then SubWorkflow else Http, k + 1);
  }

  lemma LevelPlanIsCostly(s: nat, a: Attempts, depth: nat, k: nat, path: CallPath, c: nat, plan: Plan)
    requires s >= 1 && k <= depth && forall n :: n in plan.defs ==> plan.defs[n] in StepsAt(s, a, depth, k)
    requires if k < depth then EveryCostAt(s, a, depth, k + 1, c) else c == 0
    ensures Costly(Executor(Chain(s, a, depth), k, path), plan, a, 0, k, c)
  {
    hide Executor, Chain, EveryCostAt, LastAttemptCosts;
    var exec, steps := Executor(Chain(s, a, depth), k, path), StepsAt(s, a, depth, k);
    forall n | n in plan.defs
      ensures MaxAttempts(plan.defs[n]) == a && !plan.defs[n].kind.Condition? && LastAttemptCosts(exec, plan.defs[n], a, 0, k, c)
    {
      var i :| 0 <= i < s && steps[i] == plan.defs[n];
      LevelIsCostly(s, a, depth, k, path, plan.defs[n], c);
    }
  }

  lemma LevelCost(s: nat, a: Attempts, depth: nat, k: nat, trigger: nat, path: CallPath, c: nat)
    requires s >= 1 && k <= depth
    requires if k < depth then EveryCostAt(s, a, depth, k + 1, c) else c == 0
    ensures CostsAt(s, a, depth, k, trigger, path, Times(s, a + c))
  {
    hide Executor, Chain, EveryCostAt, Start, RunDag, PlanOf, Costly, ValidPlan, Times, StepsAt, Level;
    var exec, plan := Executor(Chain(s, a, depth), k, path), PlanOf(StepsAt(s, a, depth, k));
    StartOfLevel(s, a, depth, k, trigger, path);
    LevelPlanIsCostly(s, a, depth, k, path, c, plan);
    WholeRunCost(exec, plan, trigger, 0, k, a, c);
  }

  lemma NoBudget(s: nat, a: nat)
    ensures Budget(s, a, 0) == 0
  {
  }

  lemma {:induction false} LevelsCost(s: nat, a: Attempts, depth: nat, k: nat, trigger: nat, path: CallPath)
    requires s >= 1 && k <= depth
    ensures CostsAt(s, a, depth, k, trigger, path, Budget(s, a, depth - k + 1))
    decreases depth - k
  {
    hide CostsAt, Budget, Times;
    var levels: nat := depth - k;
    var c, next := Budget(s, a, levels), k + 1;
    if k < depth {
      forall below: CallPath ensures CostsAt(s, a, depth, next, 0, below, c) {
        LevelsCost(s, a, depth, next, 0, below);
      }
    } else {
      NoBudget(s, a);
    }
    LevelCost(s, a, depth, k, trigger, path, c);
    BudgetUnfolds(s, a, levels);
  }

  /**
   Main theorem: for all numbers of steps, attempts and levels there are stored workflows of that size
   whose run makes exactly the number of executor calls that the bound allows.
   */
  lemma BoundIsReached(s: nat, a: Attempts, depth: nat) returns (w: World, wf: Workflow)
    requires s >= 1
    ensures w.maxDepth == depth && SizesWithin(w, s, a) && SizeWithin(wf, s, a)
    ensures var r := Start(w, wf, 0, 0, 0, []);
      r.Some? && r.value.cost == a * GeometricSum(s, depth + 1)
  {
    hide Start, Chain, Level, CostsAt, Budget, GeometricSum, SizeWithin, SizesWithin;
    w, wf := Chain(s, a, depth), Level(s, a, depth, 0);
    ChainSizes(s, a, depth);
    LevelsCost(s, a, depth, 0, 0, []);
    CostOfTop(s, a, depth, Budget(s, a, depth + 1));
    BudgetIsGeometric(s, a, depth + 1);
  }
}
