/**
 The result of a run does not depend on the order in which a workflow lists its steps, as long as
 executors read only what their transitive dependencies produced and conditions decide only about
 steps that depend on them.
 */
module OrderIndependence {
  import opened Common
  import opened DepGraph
  import opened Definitions
  import opened Status
  import opened Engine
  import opened RunProperties
  import opened RunTheorems
  import opened RunLaws
  import opened Planning
  import Parser
  import MaxDepth

  /** n depends on a, directly or through other steps. */
  ghost predicate DependsOn(g: Graph, n: Id, a: Id) {
    exists p :: IsPath(g, p) && |p| >= 2 && p[0] == a && p[|p|-1] == n
  }

  ghost predicate AgreeAbove(g: Graph, n: Id, x: map<Id, Output>, y: map<Id, Output>) {
    forall d :: DependsOn(g, n, d) ==> (d in x <==> d in y) && (d in x ==> x[d] == y[d])
  }

  /** The workflow's executors are functions of the trigger and the outputs of the step's transitive dependencies. */
  ghost predicate ReadsOnlyDependencies(exec: Oracle, defs: map<Id, StepDef>, g: Graph) {
    forall n: Id, a: nat, x: Context, y: Context ::
      n in defs && SameBase(x, y) && AgreeAbove(g, n, x.steps, y.steps) ==>
        exec(defs[n], a, x).outcome == exec(defs[n], a, y).outcome
  }

  predicate MayRuleOut(def: StepDef, n: Id) {
    def.kind.Condition? && (n in def.config.trueBranch || n in def.config.falseBranch)
  }

  /** Every step that a condition can rule out depends on that condition. */
  ghost predicate BranchesBelow(defs: map<Id, StepDef>, g: Graph) {
    forall c, n :: c in defs && n in defs && MayRuleOut(defs[c], n) ==> DependsOn(g, n, c)
  }

  lemma {:induction false} PathInOrder(g: Graph, order: seq<Id>, p: seq<Id>, j: nat)
    requires DepsFirst(g, order) && IsPath(g, p) && |p| >= 2 && j < |order| && p[|p|-1] == order[j]
    ensures p[0] in order[..j]
    decreases |p|
  {
    var d := p[|p|-2];
    assert Edge(g, d, order[j]);
    assert d in order[..j];
    if |p| > 2 {
      var i :| 0 <= i < j && order[i] == d;
      SubPath(g, p, 0, |p| - 1);
      PathInOrder(g, order, p[..|p|-1], i);
      assert order[..i] <= order[..j];
      var k :| 0 <= k < i && order[k] == p[0];
      assert order[..j][k] == p[0];
    }
  }

  lemma AncestorsComeFirst(g: Graph, order: seq<Id>, j: nat, a: Id)
    requires DepsFirst(g, order) && j < |order| && DependsOn(g, order[j], a)
    ensures a in order[..j]
  {
    var p :| IsPath(g, p) && |p| >= 2 && p[0] == a && p[|p|-1] == order[j];
    PathInOrder(g, order, p, j);
  }

  lemma {:induction false} RetryAgrees(exec: Oracle, def: StepDef, i: nat, j: nat, x: Context, y: Context, row: StepRow, from: nat)
    requires forall a :: exec(def, a, x).outcome == exec(def, a, y).outcome
    ensures TryFrom(exec, def, i, x, row, from).row == TryFrom(exec, def, j, y, row, from).row
    decreases row.maxAttempts - from
  {
    if from < row.maxAttempts {
      var a := from + 1;
      match exec(def, a, x).outcome {
        case Success(_) =>
        case Failure(fault) =>
          RetryAgrees(exec, def, i, j, x, y, Move(Begin(row, a), Failed).(error := Some(fault)), a);
      }
    }
  }

  /** Two executions of the same step definitions in two orders, both with dependencies first. */
  ghost predicate TwoOrders(g: Graph, p: Plan, q: Plan) {
    && ValidPlan(p) && ValidPlan(q) && p.defs == q.defs
    && DepsFirst(g, p.order) && DepsFirst(g, q.order)
  }

  /** All steps before position j of the second order have the same row in both runs. */
  ghost predicate AgreeBeforeStep(q: Plan, j: nat, a: map<Id, StepRow>, b: map<Id, StepRow>)
    requires j <= |q.order|
  {
    forall d :: d in q.order[..j] ==> d in a && d in b && a[d] == b[d]
  }

  lemma OutputsAgreeAbove(g: Graph, p: Plan, q: Plan, a: map<Id, StepRow>, b: map<Id, StepRow>, i: nat, j: nat)
    requires TwoOrders(g, p, q) && i < |p.order| && j < |q.order| && p.order[i] == q.order[j]
    requires AgreeBeforeStep(q, j, a, b)
    ensures AgreeAbove(g, p.order[i], OutputsBefore(p.order, a, i), OutputsBefore(q.order, b, j))
  {
    forall d | DependsOn(g, p.order[i], d)
      ensures var x, y := OutputsBefore(p.order, a, i), OutputsBefore(q.order, b, j);
        (d in x <==> d in y) && (d in x ==> x[d] == y[d])
    {
      AncestorsComeFirst(g, p.order, i, d);
      AncestorsComeFirst(g, q.order, j, d);
    }
  }

  lemma ExclusionsAgree(g: Graph, p: Plan, q: Plan, a: map<Id, StepRow>, b: map<Id, StepRow>, i: nat, j: nat)
    requires TwoOrders(g, p, q) && i < |p.order| && j < |q.order| && p.order[i] == q.order[j]
    requires BranchesBelow(p.defs, g) && AgreeBeforeStep(q, j, a, b)
    ensures RuledOut(p, a, i, p.order[i]) <==> RuledOut(q, b, j, q.order[j])
  {
    var n := p.order[i];
    OrderInDefs(p, i);
    if RuledOut(p, a, i, n) {
      var c :| RulesOut(p, a, i, c, n);
      assert DependsOn(g, n, c);
      AncestorsComeFirst(g, q.order, j, c);
      assert RulesOut(q, b, j, c, n);
    }
    if RuledOut(q, b, j, n) {
      var c :| RulesOut(q, b, j, c, n);
      assert DependsOn(g, n, c);
      AncestorsComeFirst(g, p.order, i, c);
      assert RulesOut(p, a, i, c, n);
    }
  }

  lemma RowsAgree(exec: Oracle, g: Graph, p: Plan, q: Plan, base: Context,
                  a: map<Id, StepRow>, b: map<Id, StepRow>, i: nat, j: nat)
    requires TwoOrders(g, p, q) && i < |p.order| && j < |q.order| && p.order[i] == q.order[j]
    requires ReadsOnlyDependencies(exec, p.defs, g) && BranchesBelow(p.defs, g) && AgreeBeforeStep(q, j, a, b)
    ensures RowAt(exec, p, base, a, i) == RowAt(exec, q, base, b, j)
  {
    OutputsAgreeAbove(g, p, q, a, b, i, j);
    ExclusionsAgree(g, p, q, a, b, i, j);
    OrderInDefs(p, i);
    var def := p.defs[p.order[i]];
    var x := base.(steps := OutputsBefore(p.order, a, i));
    var y := base.(steps := OutputsBefore(q.order, b, j));
    assert x.(steps := map[]) == y.(steps := map[]);
    forall k ensures exec(def, k, x).outcome == exec(def, k, y).outcome {
      assert AgreeAbove(g, p.order[i], x.steps, y.steps);
    }
    RetryAgrees(exec, def, i, j, x, y, InitialRow(def), 0);
  }

  lemma ReachedStepAgrees(exec: Oracle, g: Graph, p: Plan, q: Plan, base: Context, r: RunState, s: RunState, done: nat, j: nat)
    requires TwoOrders(g, p, q) && ReadsOnlyDependencies(exec, p.defs, g) && BranchesBelow(p.defs, g)
    requires Ended(exec, p, base, r, |p.order|) && r.exec.status.ExecCompleted?
    requires Ended(exec, q, base, s, done) && j < done && AgreeBeforeStep(q, j, r.rows, s.rows)
    ensures q.order[j] in r.rows && q.order[j] in s.rows && r.rows[q.order[j]] == s.rows[q.order[j]]
  {
    hide RowAt, ReadsOnlyDependencies, BranchesBelow, Untouched, AgreeBeforeStep;
    OrderInDefs(q, j);
    var i := RowPosition(exec, p, base, r, |p.order|, q.order[j]);
    RowsAgree(exec, g, p, q, base, r.rows, s.rows, i, j);
    assert ExplainedAt(exec, p, base, r.rows, i) && ExplainedAt(exec, q, base, s.rows, j);
  }

  lemma AgreeGrows(q: Plan, j: nat, a: map<Id, StepRow>, b: map<Id, StepRow>)
    requires j < |q.order| && AgreeBeforeStep(q, j, a, b)
    requires q.order[j] in a && q.order[j] in b && a[q.order[j]] == b[q.order[j]]
    ensures AgreeBeforeStep(q, j + 1, a, b)
  {
    assert q.order[..j+1] == q.order[..j] + [q.order[j]];
  }

  /** Every step that the second run reached ended as it did in the first, completed run. */
  lemma ReachedStepsAgree(exec: Oracle, g: Graph, p: Plan, q: Plan, base: Context, r: RunState, s: RunState, done: nat)
    requires TwoOrders(g, p, q) && ReadsOnlyDependencies(exec, p.defs, g) && BranchesBelow(p.defs, g)
    requires Ended(exec, p, base, r, |p.order|) && r.exec.status.ExecCompleted?
    requires Ended(exec, q, base, s, done)
    ensures AgreeBeforeStep(q, done, r.rows, s.rows)
  {
    var j := 0;
    while j < done
      invariant 0 <= j <= done && AgreeBeforeStep(q, j, r.rows, s.rows)
    {
      ReachedStepAgrees(exec, g, p, q, base, r, s, done, j);
      AgreeGrows(q, j, r.rows, s.rows);
      j := j + 1;
    }
  }

  /** Completion, all rows and the final context are the same in every order that respects dependencies. */
  lemma CompletedRunIsOrderIndependent(exec: Oracle, g: Graph, p: Plan, q: Plan, trigger: nat, tenant: Id, depth: nat)
    requires TwoOrders(g, p, q) && ReadsOnlyDependencies(exec, p.defs, g) && BranchesBelow(p.defs, g)
    requires RunDag(exec, p, trigger, tenant, depth).exec.status.ExecCompleted?
    ensures var r, s := RunDag(exec, p, trigger, tenant, depth), RunDag(exec, q, trigger, tenant, depth);
      s.rows == r.rows && s.exec == r.exec
  {
    var base := Base(trigger, tenant, depth);
    var r, s := RunDag(exec, p, trigger, tenant, depth), RunDag(exec, q, trigger, tenant, depth);
    var all := RunOutcome(exec, p, trigger, tenant, depth);
    var done := RunOutcome(exec, q, trigger, tenant, depth);
    ReachedStepsAgree(exec, g, p, q, base, r, s, done);
    SecondRunCompletes(exec, p, q, base, r, s, done);
    SameRowsSameRun(exec, p, q, base, r, s);
  }

  lemma SecondRunCompletes(exec: Oracle, p: Plan, q: Plan, base: Context, r: RunState, s: RunState, done: nat)
    requires ValidPlan(p) && ValidPlan(q) && p.defs == q.defs
    requires Ended(exec, p, base, r, |p.order|) && r.exec.status.ExecCompleted?
    requires Ended(exec, q, base, s, done) && AgreeBeforeStep(q, done, r.rows, s.rows)
    ensures s.exec.status.ExecCompleted? && done == |q.order|
  {
    if done > 0 {
      LastStepSettles(exec, p, q, base, r, s, done);
    }
    SettledEndCompletes(exec, q, base, s, done);
  }

  lemma SettledEndCompletes(exec: Oracle, q: Plan, base: Context, s: RunState, done: nat)
    requires ValidPlan(q) && Ended(exec, q, base, s, done)
    requires done > 0 ==> q.order[done-1] in s.rows && Settled(s.rows[q.order[done-1]])
    ensures s.exec.status.ExecCompleted? && done == |q.order|
  {
    hide ValidPlan, Explained, FinishedWell;
  }

  lemma LastStepSettles(exec: Oracle, p: Plan, q: Plan, base: Context, r: RunState, s: RunState, done: nat)
    requires ValidPlan(p) && ValidPlan(q) && p.defs == q.defs
    requires Ended(exec, p, base, r, |p.order|) && r.exec.status.ExecCompleted?
    requires 0 < done <= |q.order| && AgreeBeforeStep(q, done, r.rows, s.rows)
    ensures q.order[done-1] in s.rows && Settled(s.rows[q.order[done-1]])
  {
    hide ValidPlan, Explained, FailedAt, RowAt;
    var n := q.order[done-1];
    assert n in q.order[..done];
    OrderInDefs(q, done - 1);
    var i := RowPosition(exec, p, base, r, |p.order|, n);
  }

  lemma SameOutputs(p: seq<Id>, q: seq<Id>, rows: map<Id, StepRow>)
    requires Elems(p) == Elems(q)
    ensures OutputsBefore(p, rows, |p|) == OutputsBefore(q, rows, |q|)
  {
    assert p[..|p|] == p && q[..|q|] == q;
    forall n ensures n in p <==> n in q {
      assert n in p <==> n in Elems(p);
      assert n in q <==> n in Elems(q);
    }
  }

  lemma SameRows(q: Plan, r: map<Id, StepRow>, s: map<Id, StepRow>)
    requires ValidPlan(q) && r.Keys == q.defs.Keys && s.Keys == q.defs.Keys
    requires AgreeBeforeStep(q, |q.order|, r, s)
    ensures r == s
  {
    assert q.order[..|q.order|] == q.order;
    forall n | n in q.defs ensures r[n] == s[n] {
      assert n in Elems(q.order);
    }
  }

  lemma SameRowsSameRun(exec: Oracle, p: Plan, q: Plan, base: Context, r: RunState, s: RunState)
    requires ValidPlan(p) && ValidPlan(q) && p.defs == q.defs
    requires Ended(exec, p, base, r, |p.order|) && r.exec.status.ExecCompleted?
    requires Ended(exec, q, base, s, |q.order|) && s.exec.status.ExecCompleted?
    requires AgreeBeforeStep(q, |q.order|, r.rows, s.rows)
    ensures s.rows == r.rows && s.exec == r.exec
  {
    SameRows(q, r.rows, s.rows);
    SameOutputs(p.order, q.order, r.rows);
  }

  // ---- Permuting the step list of an accepted workflow ----

  ghost predicate SameSteps(a: seq<StepDef>, b: seq<StepDef>) {
    |a| == |b| && forall s :: s in a <==> s in b
  }

  lemma SameGraph(a: seq<StepDef>, b: seq<StepDef>)
    requires UniqueIds(a) && UniqueIds(b) && SameSteps(a, b)
    ensures DefsOf(a) == DefsOf(b) && GraphOf(a).deps == GraphOf(b).deps
  {
    DefsOfSteps(a);
    DefsOfSteps(b);
    forall n | n in DefsOf(a) ensures n in DefsOf(b) && DefsOf(a)[n] == DefsOf(b)[n] {
      var s :| s in a && s.id == n;
      assert s in b;
    }
    forall n | n in DefsOf(b) ensures n in DefsOf(a) {
      var s :| s in b && s.id == n;
      assert s in a;
    }
    assert DefsOf(a) == DefsOf(b);
    SameDeps(a, b);
  }

  lemma SameDeps(a: seq<StepDef>, b: seq<StepDef>)
    requires UniqueIds(a) && UniqueIds(b) && DefsOf(a) == DefsOf(b)
    ensures GraphOf(a).deps == GraphOf(b).deps
  {
    GraphMatchesDefs(a);
    GraphMatchesDefs(b);
  }

  lemma SameEdges(g: Graph, h: Graph)
    requires g.deps == h.deps
    ensures Closed(g) <==> Closed(h)
    ensures Acyclic(g) <==> Acyclic(h)
    ensures forall order :: DepsFirst(g, order) <==> DepsFirst(h, order)
  {
    forall p ensures IsPath(g, p) <==> IsPath(h, p) {
      assert forall a, b :: Edge(g, a, b) <==> Edge(h, a, b);
    }
    forall c ensures IsCycle(g, c) <==> IsCycle(h, c) {
      assert IsPath(g, c) <==> IsPath(h, c);
    }
  }

  lemma SameDepth(g: Graph, h: Graph)
    requires g.deps == h.deps
    ensures MaxDepth.TooDeep(g) ==> MaxDepth.TooDeep(h)
  {
    if MaxDepth.TooDeep(g) {
      var n, k :| n in g.deps && k > MaxDepth.MAX_DEPTH && MaxDepth.ChainOfLength(g, n, k);
      var p :| MaxDepth.ChainTo(g, p, n) && |p| == k;
      assert forall a, b :: Edge(g, a, b) <==> Edge(h, a, b);
      assert MaxDepth.ChainTo(h, p, n);
      assert MaxDepth.ChainOfLength(h, n, k);
    }
  }

  lemma {:induction false} UniqueFromCount(a: seq<StepDef>, b: seq<StepDef>)
    requires UniqueIds(a) && SameSteps(a, b)
    ensures UniqueIds(b)
  {
    DistinctSteps(a);
    DistinctCard(a);
    assert Elems(a) == Elems(b);
    CardDistinct(b);
    forall i, j | 0 <= i < j < |b| ensures b[i].id != b[j].id {
      assert b[i] in b && b[j] in b;
      var k :| 0 <= k < |a| && a[k] == b[i];
      var l :| 0 <= l < |a| && a[l] == b[j];
      assert b[i] != b[j];
    }
  }

  lemma DistinctSteps(a: seq<StepDef>)
    requires UniqueIds(a)
    ensures Distinct(a)
  {
  }

  lemma {:induction false} CardDistinct<T>(s: seq<T>)
    requires |Elems(s)| == |s|
    ensures Distinct(s)
  {
    if s != [] {
      var init, last := s[..|s|-1], s[|s|-1];
      assert Elems(s) == Elems(init) + {last};
      ElemsCard(init);
      CardDistinct(init);
      assert last !in Elems(init);
    }
  }

  lemma {:induction false} ElemsCard<T>(s: seq<T>)
    ensures |Elems(s)| <= |s|
  {
    if s != [] {
      ElemsCard(s[..|s|-1]);
      assert Elems(s) == Elems(s[..|s|-1]) + {s[|s|-1]};
    }
  }

  /** Permuting the steps of an accepted definition gives an accepted definition. */
  lemma PermutationIsAccepted(raw: seq<RawStep>, perm: seq<RawStep>, maxSteps: nat)
    requires Parser.Accepted(raw, maxSteps) && Parser.AllWellTyped(perm)
    requires SameSteps(Parser.StepsOf(raw), Parser.StepsOf(perm))
    ensures Parser.Accepted(perm, maxSteps)
  {
    var a, b := Parser.StepsOf(raw), Parser.StepsOf(perm);
    UniqueFromCount(a, b);
    SameGraph(a, b);
    SameEdges(GraphOf(a), GraphOf(b));
    SameDepth(GraphOf(b), GraphOf(a));
    forall i | 0 <= i < |b| ensures b[i].config.templatesOk {
      assert b[i] in a;
    }
  }

  /**
   Main theorem. Permuting the step list of an accepted workflow changes neither whether the run
   completes nor, when it does, any step row or the final context.
   */
  lemma ListOrderIsIrrelevant(exec: Oracle, raw: seq<RawStep>, perm: seq<RawStep>, maxSteps: nat,
                              trigger: nat, tenant: Id, depth: nat)
    requires Parser.Accepted(raw, maxSteps) && Parser.AllWellTyped(perm)
    requires SameSteps(Parser.StepsOf(raw), Parser.StepsOf(perm))
    requires ReadsOnlyDependencies(exec, DefsOf(Parser.StepsOf(raw)), GraphOf(Parser.StepsOf(raw)))
    requires BranchesBelow(DefsOf(Parser.StepsOf(raw)), GraphOf(Parser.StepsOf(raw)))
    ensures Parser.Accepted(perm, maxSteps)
    ensures var p, q := PlanOf(Parser.StepsOf(raw)), PlanOf(Parser.StepsOf(perm));
      && ValidPlan(p) && ValidPlan(q)
      && var r, s := RunDag(exec, p, trigger, tenant, depth), RunDag(exec, q, trigger, tenant, depth);
      && (r.exec.status.ExecCompleted? <==> s.exec.status.ExecCompleted?)
      && (r.exec.status.ExecCompleted? ==> s.rows == r.rows && s.exec == r.exec)
  {
    PermutationIsAccepted(raw, perm, maxSteps);
    var a, b := Parser.StepsOf(raw), Parser.StepsOf(perm);
    var p, q := PlanOf(a), PlanOf(b);
    PlanIsValid(a);
    PlanIsValid(b);
    SameGraph(a, b);
    SameEdges(GraphOf(a), GraphOf(b));
    assert TwoOrders(GraphOf(a), p, q) && TwoOrders(GraphOf(a), q, p);
    if RunDag(exec, p, trigger, tenant, depth).exec.status.ExecCompleted? {
      CompletedRunIsOrderIndependent(exec, GraphOf(a), p, q, trigger, tenant, depth);
    } else if RunDag(exec, q, trigger, tenant, depth).exec.status.ExecCompleted? {
      CompletedRunIsOrderIndependent(exec, GraphOf(a), q, p, trigger, tenant, depth);
    }
  }
}
