/** Workflow definitions as the parser sees them, and the dependency graph they induce. */
module Definitions {
  import opened Common
  import opened DepGraph

  datatype StepType = Http | Transform | Condition | Delay | SubWorkflow

  /**
   The parts of a step's configuration that the engine itself reads. `templatesOk` says whether every
   template string that the parser's scan of the configuration visits can be parsed.
   */
  datatype Config = Config(
    hasExpression: bool, trueBranch: seq<Id>, falseBranch: seq<Id>, target: Option<Id>, templatesOk: bool)

  /** retry.max_attempts, as bounded by the definition schema. */
  type Attempts = n: nat | 1 <= n <= 10 witness 3

  const DEFAULT_ATTEMPTS: Attempts := 3

  datatype StepDef = StepDef(id: Id, kind: StepType, config: Config, dependsOn: seq<Id>, retry: Option<Attempts>)

  /**
   A stored step: one that satisfies the definition schema, or one that does not. Of the latter, the type
   may be a name that is not known, or a value that cannot be looked up in a set (a non-empty list or object).
   */
  datatype RawStep = WellTyped(step: StepDef) | UnknownType | UnhashableType | Malformed

  function MaxAttempts(s: StepDef): Attempts {
    if s.retry.Some? then s.retry.value else DEFAULT_ATTEMPTS
  }

  ghost predicate UniqueIds(steps: seq<StepDef>) {
    forall i, j :: 0 <= i < j < |steps| ==> steps[i].id != steps[j].id
  }

  /** Dictionary semantics: a repeated id keeps its first position and its last dependency list. */
  ghost function GraphOf(steps: seq<StepDef>): (g: Graph)
  {
    if steps == [] then Graph([], map[])
    else
      var s := steps[|steps|-1];
      var g := GraphOf(steps[..|steps|-1]);
      Graph(if s.id in g.deps then g.nodes else g.nodes + [s.id], g.deps[s.id := s.dependsOn])
  }

  lemma {:induction false} GraphOfIsWellFormed(steps: seq<StepDef>)
    ensures WellFormed(GraphOf(steps))
    ensures forall n :: n in GraphOf(steps).deps <==> exists s :: s in steps && s.id == n
  {
    if steps != [] {
      var init, s := steps[..|steps|-1], steps[|steps|-1];
      GraphOfIsWellFormed(init);
      NodesAreKeys(GraphOf(init));
      var g, h := GraphOf(init), GraphOf(steps);
      assert steps == init + [s];
      assert forall t :: t in steps <==> t in init || t == s;
      if s.id !in g.deps {
        assert Elems(h.nodes) == Elems(g.nodes) + {s.id};
      }
    }
  }

  lemma FreshId(steps: seq<StepDef>)
    requires UniqueIds(steps) && steps != []
    ensures steps[|steps|-1].id !in GraphOf(steps[..|steps|-1]).deps
  {
    var init, s := steps[..|steps|-1], steps[|steps|-1];
    GraphOfIsWellFormed(init);
    forall t | t in init ensures t.id != s.id {
      var i :| 0 <= i < |init| && init[i] == t;
      assert steps[i] == t;
    }
  }

  lemma {:induction false} GraphOfNodes(steps: seq<StepDef>)
    requires UniqueIds(steps)
    ensures |GraphOf(steps).nodes| == |steps|
    ensures forall i :: 0 <= i < |steps| ==> GraphOf(steps).nodes[i] == steps[i].id
  {
    if steps != [] {
      var init := steps[..|steps|-1];
      FreshId(steps);
      GraphOfNodes(init);
      assert GraphOf(steps).nodes == GraphOf(init).nodes + [steps[|steps|-1].id];
    }
  }

  lemma {:induction false} GraphOfDeps(steps: seq<StepDef>, i: nat)
    requires UniqueIds(steps) && i < |steps|
    ensures steps[i].id in GraphOf(steps).deps && GraphOf(steps).deps[steps[i].id] == steps[i].dependsOn
  {
    if i < |steps| - 1 {
      GraphOfDeps(steps[..|steps|-1], i);
    }
  }

  /** With unique ids the graph has one node per step, in list order, with that step's dependencies. */
  lemma GraphOfUnique(steps: seq<StepDef>)
    requires UniqueIds(steps)
    ensures |GraphOf(steps).nodes| == |steps|
    ensures forall i :: 0 <= i < |steps| ==> GraphOf(steps).nodes[i] == steps[i].id
    ensures forall i :: 0 <= i < |steps| ==>
      steps[i].id in GraphOf(steps).deps && GraphOf(steps).deps[steps[i].id] == steps[i].dependsOn
  {
    GraphOfNodes(steps);
    forall i | 0 <= i < |steps|
      ensures steps[i].id in GraphOf(steps).deps && GraphOf(steps).deps[steps[i].id] == steps[i].dependsOn
    {
      GraphOfDeps(steps, i);
    }
  }

  /** Some step with the id m comes before every step with the id n. */
  ghost predicate Precedes(steps: seq<StepDef>, m: Id, n: Id) {
    exists k :: 0 <= k < |steps| && steps[k].id == m && forall j :: 0 <= j <= k ==> steps[j].id != n
  }

  lemma PrecedesOn(steps: seq<StepDef>, m: Id, n: Id)
    requires steps != [] && Precedes(steps[..|steps|-1], m, n)
    ensures Precedes(steps, m, n)
  {
    var init := steps[..|steps|-1];
    var k :| 0 <= k < |init| && init[k].id == m && forall j :: 0 <= j <= k ==> init[j].id != n;
    assert forall j :: 0 <= j <= k ==> steps[j] == init[j];
  }

  /** Of steps with the same id, the last one's dependencies count. */
  lemma {:induction false} LastListCounts(steps: seq<StepDef>, k: nat)
    requires k < |steps| && forall j :: k < j < |steps| ==> steps[j].id != steps[k].id
    ensures steps[k].id in GraphOf(steps).deps && GraphOf(steps).deps[steps[k].id] == steps[k].dependsOn
  {
    if k < |steps| - 1 {
      LastListCounts(steps[..|steps|-1], k);
    }
  }

  /** Nodes stand in the order in which their ids first occur. */
  lemma {:induction false} FirstPositionCounts(steps: seq<StepDef>)
    ensures forall i, j :: 0 <= i < j < |GraphOf(steps).nodes| ==> Precedes(steps, GraphOf(steps).nodes[i], GraphOf(steps).nodes[j])
  {
    if steps != [] {
      var init := steps[..|steps|-1];
      FirstPositionCounts(init);
      GraphOfIsWellFormed(init);
      var g, h := GraphOf(init), GraphOf(steps);
      forall i, j | 0 <= i < j < |h.nodes| ensures Precedes(steps, h.nodes[i], h.nodes[j]) {
        if j < |g.nodes| {
          PrecedesOn(steps, h.nodes[i], h.nodes[j]);
        } else {
          EarlierThanNew(steps, g.nodes[i]);
        }
      }
    }
  }

  lemma EarlierThanNew(steps: seq<StepDef>, m: Id)
    requires steps != [] && m in GraphOf(steps[..|steps|-1]).nodes
    requires steps[|steps|-1].id !in GraphOf(steps[..|steps|-1]).deps
    ensures Precedes(steps, m, steps[|steps|-1].id)
  {
    var init, n := steps[..|steps|-1], steps[|steps|-1].id;
    GraphOfIsWellFormed(init);
    NodesAreKeys(GraphOf(init));
    var s :| s in init && s.id == m;
    var k :| 0 <= k < |init| && init[k] == s;
    forall j | 0 <= j <= k ensures steps[j].id != n {
      assert steps[j] == init[j] && init[j] in init;
    }
  }

  /** The loop that fills the dictionary. */
  method BuildDependencyGraph(steps: seq<StepDef>) returns (g: Graph)
    ensures g == GraphOf(steps) && WellFormed(g)
  {
    g := Graph([], map[]);
    var i := 0;
    while i < |steps|
      invariant 0 <= i <= |steps|
      invariant g == GraphOf(steps[..i])
    {
      assert steps[..i+1][..i] == steps[..i];
      var s := steps[i];
      g := Graph(if s.id in g.deps then g.nodes else g.nodes + [s.id], g.deps[s.id := s.dependsOn]);
      i := i + 1;
    }
    assert steps[..|steps|] == steps;
    GraphOfIsWellFormed(steps);
  }
}
