/** The run-time topological sort, built independently of the parser's graph checks. */
module Scheduler {
  import opened Common
  import opened DepGraph
  import opened Definitions
  import opened Kahn
  import Parser

  /** One round of the first loop: the step enters the in-degree table and its dependencies' lists. */
  method CollectStep(step: StepDef, graph0: map<Id, seq<Id>>, inDegree0: map<Id, int>)
    returns (graph: map<Id, seq<Id>>, inDegree: map<Id, int>)
    requires step.id !in inDegree0
    ensures forall n :: Get(graph, n) == Get(graph0, n) + Repeat(step.id, Count(step.dependsOn, n))
    ensures inDegree == inDegree0[step.id := |step.dependsOn|]
  {
    inDegree := if step.id in inDegree0 then inDegree0 else inDegree0[step.id := 0];
    graph := AppendDependent(graph0, step.id, step.dependsOn);
    inDegree := CountMentions(inDegree, step.id, step.dependsOn);
  }

  /** What the first loop has collected from the first i steps of the graph. */
  ghost predicate Collected(g: Graph, i: nat, graph: map<Id, seq<Id>>, inDegree: map<Id, int>)
    requires WellFormed(g) && i <= |g.nodes|
  {
    NodesAreKeys(g);
    && (forall n :: Get(graph, n) == Dependents(g.nodes[..i], g.deps, n))
    && inDegree.Keys == Elems(g.nodes[..i])
    && (forall n :: n in inDegree ==> n in g.deps && inDegree[n] == |g.deps[n]|)
  }

  lemma CollectedStep(g: Graph, i: nat, graph: map<Id, seq<Id>>, inDegree: map<Id, int>,
                      graph': map<Id, seq<Id>>, inDegree': map<Id, int>)
    requires WellFormed(g) && i < |g.nodes| && g.nodes[i] in g.deps && Collected(g, i, graph, inDegree)
    requires forall n :: Get(graph', n) == Get(graph, n) + Repeat(g.nodes[i], Count(g.deps[g.nodes[i]], n))
    requires inDegree' == inDegree[g.nodes[i] := |g.deps[g.nodes[i]]|]
    ensures Collected(g, i + 1, graph', inDegree')
  {
    NodesAreKeys(g);
    assert g.nodes[..i+1] == g.nodes[..i] + [g.nodes[i]];
    assert g.nodes[..i+1][..i] == g.nodes[..i];
  }

  /** The first loop: adjacency lists and in-degrees straight from the step list. */
  method CollectEdges(steps: seq<StepDef>)
    returns (graph: map<Id, seq<Id>>, inDegree: map<Id, int>, keys: seq<Id>)
    requires UniqueIds(steps)
    ensures WellFormed(GraphOf(steps))
    ensures forall n :: Get(graph, n) == Children(GraphOf(steps), n)
    ensures inDegree == InDegrees(GraphOf(steps)) && keys == GraphOf(steps).nodes
  {
    hide Collected, WellFormed, GraphOf, Children, InDegrees;
    NodesMatchSteps(steps);
    graph, inDegree, keys := map[], map[], [];
    NoneCollected(GraphOf(steps));
    var i := 0;
    while i < |steps|
      invariant 0 <= i <= |steps|
      invariant Collected(GraphOf(steps), i, graph, inDegree)
      invariant keys == GraphOf(steps).nodes[..i]
    {
      NextNode(steps, i);
      CollectedKeys(GraphOf(steps), i, graph, inDegree);
      ghost var graph0, inDegree0 := graph, inDegree;
      graph, inDegree := CollectStep(steps[i], graph, inDegree);
      CollectedStep(GraphOf(steps), i, graph0, inDegree0, graph, inDegree);
      keys := keys + [steps[i].id];
      i := i + 1;
    }
    AllCollected(GraphOf(steps), graph, inDegree);
    assert GraphOf(steps).nodes[..|steps|] == GraphOf(steps).nodes;
  }

  lemma NodesMatchSteps(steps: seq<StepDef>)
    requires UniqueIds(steps)
    ensures WellFormed(GraphOf(steps)) && |GraphOf(steps).nodes| == |steps|
  {
    GraphOfUnique(steps);
    GraphOfIsWellFormed(steps);
  }

  lemma NextNode(steps: seq<StepDef>, i: nat)
    requires UniqueIds(steps) && i < |steps|
    ensures var g := GraphOf(steps);
      && WellFormed(g) && i < |g.nodes| && g.nodes[i] == steps[i].id && steps[i].id in g.deps
      && g.deps[steps[i].id] == steps[i].dependsOn && steps[i].id !in g.nodes[..i]
      && g.nodes[..i+1] == g.nodes[..i] + [steps[i].id]
  {
    GraphOfUnique(steps);
    GraphOfIsWellFormed(steps);
  }

  lemma CollectedKeys(g: Graph, i: nat, graph: map<Id, seq<Id>>, inDegree: map<Id, int>)
    requires WellFormed(g) && i <= |g.nodes| && Collected(g, i, graph, inDegree)
    ensures inDegree.Keys == Elems(g.nodes[..i])
  {
  }

  lemma NoneCollected(g: Graph)
    requires WellFormed(g)
    ensures Collected(g, 0, map[], map[])
  {
    assert g.nodes[..0] == [];
  }

  lemma AllCollected(g: Graph, graph: map<Id, seq<Id>>, inDegree: map<Id, int>)
    requires WellFormed(g) && Collected(g, |g.nodes|, graph, inDegree)
    ensures inDegree == InDegrees(g)
    ensures forall n :: Get(graph, n) == Children(g, n)
  {
    NodesAreKeys(g);
    assert g.nodes[..|g.nodes|] == g.nodes;
  }

  /** The loop over the children of the popped node. */
  method Release(kids: seq<Id>, inDegree0: map<Id, int>, queue0: seq<Id>) returns (inDegree: map<Id, int>, queue: seq<Id>)
    requires Covers(Frontier(inDegree0, queue0), kids)
    ensures Frontier(inDegree, queue) == Relax(kids, Frontier(inDegree0, queue0))
  {
    inDegree, queue := inDegree0, queue0;
    var j := 0;
    while j < |kids|
      invariant 0 <= j <= |kids|
      invariant Frontier(inDegree, queue) == Relax(kids[..j], Frontier(inDegree0, queue0))
    {
      var child := kids[j];
      assert kids[..j+1][..j] == kids[..j];
      inDegree, queue := DecrementChild(inDegree, queue, child);
      j := j + 1;
    }
    assert kids[..|kids|] == kids;
  }

  method TopologicalSort(steps: seq<StepDef>) returns (order: seq<Id>)
    requires UniqueIds(steps)
    ensures WellFormed(GraphOf(steps)) && order == KahnOrder(GraphOf(steps))
  {
    ghost var g := GraphOf(steps);
    var graph, inDegree, keys := CollectEdges(steps);
    var queue := InitialQueue(g, keys, inDegree);
    order := [];
    assert [] + KahnOrder(g) == KahnOrder(g);
    while queue != []
      invariant Sized(g, Frontier(inDegree, queue))
      invariant order + KahnFrom(g, Frontier(inDegree, queue)) == KahnOrder(g)
      decreases Work(Frontier(inDegree, queue))
    {
      ghost var f := Frontier(inDegree, queue);
      var node := queue[0];
      var kids := Get(graph, node);
      assert kids == Children(g, node);
      ChildrenCovered(g, node, f.(queue := queue[1..]));
      OrderUnfolds(g, order, f);
      inDegree, queue := Release(kids, inDegree, queue[1..]);
      order := order + [node];
    }
  }

  /** A definition the parser accepts is run in an order that lists every step once, dependencies first. */
  lemma AcceptedOrder(raw: seq<RawStep>, maxSteps: nat)
    requires Parser.Accepted(raw, maxSteps)
    ensures var g := GraphOf(Parser.StepsOf(raw));
      WellFormed(g) && Distinct(KahnOrder(g)) && |KahnOrder(g)| == |raw| && DepsFirst(g, KahnOrder(g)) &&
      forall n :: n in KahnOrder(g) <==> exists i :: 0 <= i < |raw| && raw[i].step.id == n
  {
    var steps := Parser.StepsOf(raw);
    var g := GraphOf(steps);
    GraphOfIsWellFormed(steps);
    GraphOfUnique(steps);
    OrderIsPermutation(g);
    forall n ensures n in KahnOrder(g) <==> exists i :: 0 <= i < |raw| && raw[i].step.id == n {
      assert n in KahnOrder(g) <==> n in Elems(g.nodes);
      assert forall i :: 0 <= i < |raw| ==> g.nodes[i] == raw[i].step.id;
    }
  }
}
