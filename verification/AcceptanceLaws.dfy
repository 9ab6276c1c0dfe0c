/** The rules of an accepted definition, told by the positions and fields of its steps. */
module AcceptanceLaws {
  import opened Common
  import opened DepGraph
  import opened Definitions
  import opened Parser
  import MaxDepth

  /** Each listed step is named in the dependencies of the next one. */
  ghost predicate StepChain(steps: seq<StepDef>, p: seq<nat>) {
    && (forall k :: 0 <= k < |p| ==> p[k] < |steps|)
    && (forall k, l :: 0 <= k < l < |p| && l == k + 1 ==> steps[p[k]].id in steps[p[l]].dependsOn)
  }

  /**
   Between one and the allowed number of steps, all well formed, under different ids, depending on steps of
   the list only, never on each other in a circle, in chains of at most twenty, with templates that parse.
   */
  ghost predicate MeetsRules(raw: seq<RawStep>, maxSteps: nat) {
    && 1 <= |raw| <= maxSteps
    && (forall i :: 0 <= i < |raw| ==> raw[i].WellTyped?)
    && StepsMeetRules(StepsOf(raw))
  }

  ghost predicate InList(steps: seq<StepDef>, d: Id) {
    exists j :: 0 <= j < |steps| && steps[j].id == d
  }

  ghost predicate StepsMeetRules(steps: seq<StepDef>) {
    && (forall i, j :: 0 <= i < |steps| && 0 <= j < |steps| && steps[i].id == steps[j].id ==> i == j)
    && (forall i, d :: 0 <= i < |steps| && d in steps[i].dependsOn ==> InList(steps, d))
    && (forall p :: StepChain(steps, p) && |p| >= 2 ==> p[0] != p[|p|-1])
    && (forall p :: StepChain(steps, p) ==> |p| <= 20)
    && (forall i :: 0 <= i < |steps| ==> steps[i].config.templatesOk)
  }

  ghost function IdsAt(steps: seq<StepDef>, p: seq<nat>): (q: seq<Id>)
    requires forall k :: 0 <= k < |p| ==> p[k] < |steps|
    ensures |q| == |p| && forall k :: 0 <= k < |p| ==> q[k] == steps[p[k]].id
  {
    seq(|p|, k requires 0 <= k < |p| => steps[p[k]].id)
  }

  /** Ids in the graph are the ids of the list. */
  lemma Known(steps: seq<StepDef>, n: Id)
    ensures n in GraphOf(steps).deps <==> InList(steps, n)
  {
    GraphOfIsWellFormed(steps);
    if n in GraphOf(steps).deps {
      var s :| s in steps && s.id == n;
    }
    if InList(steps, n) {
      var j :| 0 <= j < |steps| && steps[j].id == n;
      assert steps[j] in steps;
    }
  }

  lemma ChainIsPath(steps: seq<StepDef>, p: seq<nat>)
    requires UniqueIds(steps) && StepChain(steps, p)
    ensures IsPath(GraphOf(steps), IdsAt(steps, p))
  {
    hide GraphOf;
    GraphOfUnique(steps);
    var q := IdsAt(steps, p);
    forall k, l | 0 <= k < l < |q| && l == k + 1 ensures Edge(GraphOf(steps), q[k], q[l]) {
      assert steps[p[l]].id in GraphOf(steps).deps;
    }
  }

  /** Where the steps of a path stand in the list. */
  lemma {:induction false} PathIsChain(steps: seq<StepDef>, q: seq<Id>) returns (p: seq<nat>)
    requires UniqueIds(steps) && IsPath(GraphOf(steps), q) && forall n :: n in q ==> n in GraphOf(steps).deps
    ensures StepChain(steps, p) && IdsAt(steps, p) == q
  {
    hide GraphOf;
    if q == [] {
      p := [];
    } else {
      var init, n := q[..|q|-1], q[|q|-1];
      SubPath(GraphOf(steps), q, 0, |q| - 1);
      p := PathIsChain(steps, init);
      Known(steps, n);
      var j: nat :| j < |steps| && steps[j].id == n;
      GraphOfUnique(steps);
      if init != [] {
        assert Edge(GraphOf(steps), q[|q|-2], n);
        assert steps[p[|p|-1]].id == init[|init|-1];
      }
      p := p + [j];
      assert IdsAt(steps, p) == q;
    }
  }

  lemma PathIsInside(g: Graph, q: seq<Id>)
    requires Closed(g) && IsPath(g, q) && |q| >= 2
    ensures forall n :: n in q ==> n in g.deps
  {
    forall k | 0 <= k < |q| ensures q[k] in g.deps {
      if k > 0 {
        assert Edge(g, q[k - 1], q[k]);
      } else {
        assert Edge(g, q[0], q[1]);
      }
    }
  }

  lemma KnownIsClosed(steps: seq<StepDef>)
    requires UniqueIds(steps)
    ensures Closed(GraphOf(steps)) <==>
      forall i, d :: 0 <= i < |steps| && d in steps[i].dependsOn ==> InList(steps, d)
  {
    hide GraphOf;
    AllKnownIsClosed(steps);
    forall i, d | 0 <= i < |steps| && d in steps[i].dependsOn
      ensures d in GraphOf(steps).deps <==> InList(steps, d)
    {
      Known(steps, d);
    }
  }

  lemma NoCircleIffAcyclic(steps: seq<StepDef>)
    requires UniqueIds(steps) && Closed(GraphOf(steps))
    ensures Acyclic(GraphOf(steps)) <==> forall p :: StepChain(steps, p) && |p| >= 2 ==> p[0] != p[|p|-1]
  {
    hide GraphOf, UniqueIds;
    var g := GraphOf(steps);
    forall p | Acyclic(g) && StepChain(steps, p) && |p| >= 2 ensures p[0] != p[|p|-1] {
      ChainIsPath(steps, p);
      assert !IsCycle(g, IdsAt(steps, p));
    }
    if !Acyclic(g) {
      var c :| IsCycle(g, c);
      PathIsInside(g, c);
      var p := PathIsChain(steps, c);
      assert steps[p[0]].id == steps[p[|p|-1]].id;
      SamePlace(steps, p[0], p[|p|-1]);
    }
  }

  lemma SamePlace(steps: seq<StepDef>, i: nat, j: nat)
    requires UniqueIds(steps) && i < |steps| && j < |steps| && steps[i].id == steps[j].id
    ensures i == j
  {
  }

  lemma ShortIffNotTooDeep(steps: seq<StepDef>)
    requires UniqueIds(steps) && Closed(GraphOf(steps))
    ensures !MaxDepth.TooDeep(GraphOf(steps)) <==> forall p :: StepChain(steps, p) ==> |p| <= 20
  {
    hide GraphOf, UniqueIds;
    var g := GraphOf(steps);
    forall p | StepChain(steps, p) && |p| > 20 ensures MaxDepth.TooDeep(g) {
      var q := IdsAt(steps, p);
      ChainIsPath(steps, p);
      PathIsInside(g, q);
      assert MaxDepth.ChainTo(g, q, q[|q|-1]);
      assert MaxDepth.ChainOfLength(g, q[|q|-1], |q|);
    }
    if MaxDepth.TooDeep(g) {
      var n, k :| n in g.deps && k > MaxDepth.MAX_DEPTH && MaxDepth.ChainOfLength(g, n, k);
      var q :| MaxDepth.ChainTo(g, q, n) && |q| == k;
      PathIsInside(g, q);
      var p := PathIsChain(steps, q);
    }
  }

  /** Main theorem: a definition is accepted if and only if its steps meet the rules. */
  lemma AcceptedIff(raw: seq<RawStep>, maxSteps: nat)
    ensures Accepted(raw, maxSteps) <==> MeetsRules(raw, maxSteps)
  {
    if AllWellTyped(raw) {
      var steps := StepsOf(raw);
      DifferentIds(steps);
      if UniqueIds(steps) {
        KnownIsClosed(steps);
        if Closed(GraphOf(steps)) {
          NoCircleIffAcyclic(steps);
          ShortIffNotTooDeep(steps);
        }
      }
    }
  }

  lemma DifferentIds(steps: seq<StepDef>)
    ensures UniqueIds(steps) <==>
      forall i, j :: 0 <= i < |steps| && 0 <= j < |steps| && steps[i].id == steps[j].id ==> i == j
  {
  }
}
