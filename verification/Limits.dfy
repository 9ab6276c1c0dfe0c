/** The constants of the engine, each shown on an instance. */
module Limits {
  import opened Common
  import opened DepGraph
  import opened Definitions
  import opened Engine
  import opened Status
  import opened RunProperties
  import opened RunTheorems
  import opened RunLaws
  import MaxDepth
  import Parser
  import RateLimit

  // ---- At most twenty steps in a row ----

  /** A definition of k steps in a line, each depending on the one before it. */
  function Line(k: nat): (steps: seq<StepDef>)
    ensures |steps| == k
    ensures forall i :: 0 <= i < k ==> steps[i].id == i && steps[i].dependsOn == (if i == 0 then [] else [i - 1])
    ensures forall i :: 0 <= i < k ==> steps[i].config.templatesOk
  {
    seq(k, i requires 0 <= i < k =>
      StepDef(i, Http, Config(false, [], [], None, true), if i == 0 then [] else [i - 1], None))
  }

  function Stored(steps: seq<StepDef>): (raw: seq<RawStep>)
    ensures |raw| == |steps| && forall i :: 0 <= i < |steps| ==> raw[i] == WellTyped(steps[i])
  {
    seq(|steps|, i requires 0 <= i < |steps| => WellTyped(steps[i]))
  }

  lemma LineDeps(k: nat)
    ensures UniqueIds(Line(k)) && WellFormed(GraphOf(Line(k)))
    ensures forall n: Id :: n in GraphOf(Line(k)).deps <==> n < k
    ensures forall n: Id :: n < k ==> GraphOf(Line(k)).deps[n] == if n == 0 then [] else [n - 1]
  {
    hide GraphOf, WellFormed;
    var steps, g := Line(k), GraphOf(Line(k));
    GraphOfUnique(steps);
    GraphOfIsWellFormed(steps);
    forall n: Id ensures n in g.deps <==> n < k {
      if n < k {
        assert steps[n] in steps;
      }
    }
    forall n: Id | n < k ensures g.deps[n] == if n == 0 then [] else [n - 1] {
      assert g.deps[steps[n].id] == steps[n].dependsOn;
    }
  }

  lemma LineEdges(k: nat)
    ensures UniqueIds(Line(k)) && WellFormed(GraphOf(Line(k))) && Closed(GraphOf(Line(k)))
    ensures forall a: Id, b: Id :: Edge(GraphOf(Line(k)), a, b) <==> b < k && b == a + 1
  {
    hide GraphOf, WellFormed, Line;
    LineDeps(k);
  }

  /** Every chain of the line climbs one step at a time. */
  lemma {:induction false} ChainClimbs(g: Graph, p: seq<Id>)
    requires p != [] && IsPath(g, p) && forall a: Id, b: Id :: Edge(g, a, b) ==> b == a + 1
    ensures p[|p|-1] == p[0] + |p| - 1
  {
    if |p| > 1 {
      var init := p[..|p|-1];
      forall i, j | 0 <= i < j < |init| && j == i + 1 ensures Edge(g, init[i], init[j]) {
        assert Edge(g, p[i], p[j]);
      }
      ChainClimbs(g, init);
      assert Edge(g, p[|p|-2], p[|p|-1]);
    }
  }

  lemma LineDepth(k: nat)
    ensures MaxDepth.TooDeep(GraphOf(Line(k))) <==> k > 20
  {
    var g := GraphOf(Line(k));
    LineDeps(k);
    LineEdges(k);
    if k > 20 {
      var p := seq(k, i requires 0 <= i < k => i);
      assert IsPath(g, p) && MaxDepth.ChainTo(g, p, k - 1);
      assert MaxDepth.ChainOfLength(g, k - 1, k);
    }
    forall n: Id, p | n < k && MaxDepth.ChainTo(g, p, n) ensures |p| <= k {
      ChainClimbs(g, p);
    }
  }

  /** A line of up to 20 steps is accepted, and one of 21 or more is not. */
  lemma LineIsAcceptedIff(k: nat, maxSteps: nat)
    requires 1 <= k <= maxSteps
    ensures Parser.Accepted(Stored(Line(k)), maxSteps) <==> k <= 20
  {
    var steps, g := Line(k), GraphOf(Line(k));
    assert Parser.StepsOf(Stored(steps)) == steps;
    LineDeps(k);
    LineEdges(k);
    LineDepth(k);
    RankedIsAcyclic(g, map n | n in g.deps :: n as int);
  }

  // ---- Three calls without a retry setting ----

  /** A step without a retry setting whose executor always fails is called three times. */
  lemma ThreeCallsByDefault(exec: Oracle, plan: Plan, base: Context, r: RunState, done: nat, j: nat)
    requires ValidPlan(plan) && Ended(exec, plan, base, r, done) && j < done
    requires plan.order[j] in plan.defs && plan.defs[plan.order[j]].retry == None
    requires forall a, ctx :: exec(plan.defs[plan.order[j]], a, ctx).outcome.Failure?
    ensures plan.order[j] in r.rows
    ensures r.rows[plan.order[j]].status != Skipped ==>
      |CallsAt(r.calls, j)| == 3 && r.rows[plan.order[j]].attempt == 3 && r.rows[plan.order[j]].status == Failed
  {
    CallsOfStep(exec, plan, base, r, done, j);
    if r.rows[plan.order[j]].status != Skipped {
      ExecutedStepResult(exec, plan, base, r, done, j);
    }
  }

  // ---- Sixty seconds ----

  /** A client gets fewer than ten registrations through in any 60 seconds. */
  lemma RegistrationsInAnyMinute(reqs: seq<RateLimit.Request>, r: RateLimit.Request, t: int)
    requires RateLimit.InOrder(reqs) && RateLimit.WellFormed(r)
    requires forall i :: 0 <= i < |reqs| ==> RateLimit.WellFormed(reqs[i])
    requires r.verb == "POST" && r.path == "/api/tenants/register"
    ensures RateLimit.AdmittedIn(reqs, RateLimit.KeyOf(r), t, t + 60_000) < 10
  {
    RateLimit.AnyMinuteAdmitsLessThanTwice(reqs, r, t);
    RateLimit.LimitsInForce(r.verb, r.path);
  }

  /** A second request for the same key opens a new window if and only if it comes 60 seconds later, or more. */
  lemma WindowLastsSixtySeconds(r: RateLimit.Request, q: RateLimit.Request)
    requires RateLimit.KeyOf(r) == RateLimit.KeyOf(q) && r.at <= q.at
    ensures RateLimit.Opens([r, q], 1) <==> q.at - r.at >= 60_000
  {
    assert RateLimit.Opens([r, q], 0);
  }
}
