/** From an accepted list of steps to the plan that a run follows. */
module Planning {
  import opened Common
  import opened DepGraph
  import opened Definitions
  import opened Engine
  import opened Kahn

  /** Step definitions by id. */
  ghost function DefsOf(steps: seq<StepDef>): map<Id, StepDef> {
    if steps == [] then map[]
    else DefsOf(steps[..|steps|-1])[steps[|steps|-1].id := steps[|steps|-1]]
  }

  lemma {:induction false} DefsOfSteps(steps: seq<StepDef>)
    requires UniqueIds(steps)
    ensures forall n :: n in DefsOf(steps) <==> exists s :: s in steps && s.id == n
    ensures forall s :: s in steps ==> s.id in DefsOf(steps) && DefsOf(steps)[s.id] == s
  {
    if steps != [] {
      var init, last := steps[..|steps|-1], steps[|steps|-1];
      DefsOfSteps(init);
      assert forall s :: s in steps <==> s in init || s == last;
      forall s | s in init ensures s.id != last.id {
        var i :| 0 <= i < |init| && init[i] == s;
        assert steps[i] == s;
      }
    }
  }

  ghost function PlanOf(steps: seq<StepDef>): Plan {
    GraphOfIsWellFormed(steps);
    Plan(DefsOf(steps), KahnOrder(GraphOf(steps)))
  }

  /** The graph of the list in terms of the definitions. */
  ghost predicate DepsMatch(g: Graph, defs: map<Id, StepDef>) {
    g.deps.Keys == defs.Keys && forall n :: n in defs ==> g.deps[n] == defs[n].dependsOn
  }

  lemma GraphMatchesDefs(steps: seq<StepDef>)
    requires UniqueIds(steps)
    ensures WellFormed(GraphOf(steps)) && DepsMatch(GraphOf(steps), DefsOf(steps))
  {
    GraphOfIsWellFormed(steps);
    GraphOfUnique(steps);
    DefsOfSteps(steps);
    forall n | n in DefsOf(steps) ensures GraphOf(steps).deps[n] == DefsOf(steps)[n].dependsOn {
      var s :| s in steps && s.id == n;
      var i :| 0 <= i < |steps| && steps[i] == s;
    }
  }

  /** The plan of an accepted list lists every step once, dependencies first. */
  lemma PlanIsValid(steps: seq<StepDef>)
    requires UniqueIds(steps) && Closed(GraphOf(steps)) && Acyclic(GraphOf(steps))
    ensures ValidPlan(PlanOf(steps))
    ensures DepsFirst(GraphOf(steps), PlanOf(steps).order) && |PlanOf(steps).order| == |steps|
  {
    GraphMatchesDefs(steps);
    GraphOfUnique(steps);
    DefsOfSteps(steps);
    NodesAreKeys(GraphOf(steps));
    OrderIsPermutation(GraphOf(steps));
  }
}
