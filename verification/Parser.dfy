/** Validation of a stored workflow definition. */
module Parser {
  import opened Common
  import opened DepGraph
  import opened Definitions
  import CycleDetection
  import MaxDepth

  datatype ParseError =
    | NoSteps
    | TooManySteps(count: nat)
    | UnknownStepType(index: nat)
    | ValidationError(index: nat)
    | UncaughtTypeError(index: nat)
    | DuplicateStepId(id: Id)
    | InvalidDependency(step: Id, dependency: Id)
    | CycleDetected(cycle: seq<Id>)
    | MaxDepthExceeded(actualDepth: nat)
    | ExpressionError(step: Id)

  ghost predicate AllWellTyped(raw: seq<RawStep>) {
    forall i :: 0 <= i < |raw| ==> raw[i].WellTyped?
  }

  ghost function StepsOf(raw: seq<RawStep>): (steps: seq<StepDef>)
    requires AllWellTyped(raw)
    ensures |steps| == |raw| && forall i :: 0 <= i < |raw| ==> steps[i] == raw[i].step
  {
    seq(|raw|, i requires 0 <= i < |raw| => raw[i].step)
  }

  /** The checks that come before the graph algorithms. */
  ghost predicate WellShaped(raw: seq<RawStep>, maxSteps: nat) {
    && 1 <= |raw| <= maxSteps
    && AllWellTyped(raw)
    && UniqueIds(StepsOf(raw))
    && Closed(GraphOf(StepsOf(raw)))
  }

  ghost predicate TemplatesOk(steps: seq<StepDef>) {
    forall i :: 0 <= i < |steps| ==> steps[i].config.templatesOk
  }

  /** What a definition must satisfy to be accepted. */
  ghost predicate Accepted(raw: seq<RawStep>, maxSteps: nat) {
    && WellShaped(raw, maxSteps)
    && Acyclic(GraphOf(StepsOf(raw)))
    && !MaxDepth.TooDeep(GraphOf(StepsOf(raw)))
    && TemplatesOk(StepsOf(raw))
  }

  // ---- What each error means: the first rule broken, at the first place that breaks it ----

  ghost predicate FirstDuplicate(steps: seq<StepDef>, id: Id) {
    exists j :: 0 <= j < |steps| && RepeatsAt(steps, j, id)
  }

  ghost predicate RepeatsAt(steps: seq<StepDef>, j: nat, id: Id)
    requires j < |steps|
  {
    steps[j].id == id && UniqueIds(steps[..j]) && exists i :: 0 <= i < j && steps[i].id == id
  }

  ghost predicate KnownBefore(steps: seq<StepDef>, k: nat, m: nat)
    requires k < |steps| && m <= |steps[k].dependsOn|
  {
    && (forall i, d :: 0 <= i < k && d in steps[i].dependsOn ==> d in GraphOf(steps).deps)
    && (forall i :: 0 <= i < m ==> steps[k].dependsOn[i] in GraphOf(steps).deps)
  }

  /** The m-th dependency of the k-th step is the first one on a step that does not exist. */
  ghost predicate UnknownAt(steps: seq<StepDef>, k: nat, m: nat, step: Id, dependency: Id) {
    && k < |steps| && steps[k].id == step
    && m < |steps[k].dependsOn| && steps[k].dependsOn[m] == dependency && dependency !in GraphOf(steps).deps
    && KnownBefore(steps, k, m)
  }

  ghost predicate FirstUnknown(steps: seq<StepDef>, step: Id, dependency: Id) {
    exists k: nat, m: nat :: UnknownAt(steps, k, m, step, dependency)
  }

  ghost predicate FirstBadTemplate(steps: seq<StepDef>, step: Id) {
    exists i :: 0 <= i < |steps| && steps[i].id == step && !steps[i].config.templatesOk && TemplatesOk(steps[..i])
  }

  ghost predicate FirstBadStep(raw: seq<RawStep>, i: nat) {
    i < |raw| && !raw[i].WellTyped? && AllWellTyped(raw[..i])
  }

  ghost predicate Reports(raw: seq<RawStep>, maxSteps: nat, e: ParseError) {
    match e
    case NoSteps => |raw| == 0
    case TooManySteps(count) => 0 < |raw| == count && maxSteps < count
    case UnknownStepType(i) => 1 <= |raw| <= maxSteps && FirstBadStep(raw, i) && raw[i].UnknownType?
    case UncaughtTypeError(i) => 1 <= |raw| <= maxSteps && FirstBadStep(raw, i) && raw[i].UnhashableType?
    case ValidationError(i) => 1 <= |raw| <= maxSteps && FirstBadStep(raw, i) && raw[i].Malformed?
    case _ => 1 <= |raw| <= maxSteps && AllWellTyped(raw) && ReportsOnSteps(StepsOf(raw), e)
  }

  ghost predicate ReportsOnSteps(steps: seq<StepDef>, e: ParseError) {
    match e
    case DuplicateStepId(id) => FirstDuplicate(steps, id)
    case InvalidDependency(step, dependency) => UniqueIds(steps) && FirstUnknown(steps, step, dependency)
    case CycleDetected(cycle) => ShapeOk(steps) && SimpleCycle(GraphOf(steps), cycle)
    case MaxDepthExceeded(actualDepth) =>
      && ShapeOk(steps) && Acyclic(GraphOf(steps))
      && actualDepth > MaxDepth.MAX_DEPTH && MaxDepth.LongestChain(GraphOf(steps), actualDepth)
    case ExpressionError(step) =>
      && ShapeOk(steps) && Acyclic(GraphOf(steps)) && !MaxDepth.TooDeep(GraphOf(steps))
      && FirstBadTemplate(steps, step)
    case _ => false
  }

  ghost predicate ShapeOk(steps: seq<StepDef>) {
    UniqueIds(steps) && Closed(GraphOf(steps))
  }

  method ParseSteps(raw: seq<RawStep>) returns (r: Result<seq<StepDef>, ParseError>)
    ensures r.Ok? <==> AllWellTyped(raw)
    ensures r.Ok? ==> r.value == StepsOf(raw)
    ensures r.Err? ==> r.error.UnknownStepType? || r.error.ValidationError? || r.error.UncaughtTypeError?
    ensures r.Err? ==> FirstBadStep(raw, r.error.index) && (r.error.UnknownStepType? <==> raw[r.error.index].UnknownType?)
    ensures r.Err? ==> (r.error.UncaughtTypeError? <==> raw[r.error.index].UnhashableType?)
  {
    var steps := [];
    var i := 0;
    while i < |raw|
      invariant 0 <= i <= |raw| && AllWellTyped(raw[..i])
      invariant |steps| == i && forall k :: 0 <= k < i ==> raw[k].WellTyped? && steps[k] == raw[k].step
    {
      match raw[i] {
        case WellTyped(step) => steps := steps + [step];
        case UnhashableType => return Err(UncaughtTypeError(i));
        case UnknownType => return Err(UnknownStepType(i));
        case Malformed => return Err(ValidationError(i));
      }
      i := i + 1;
    }
    return Ok(steps);
  }

  method FindDuplicate(steps: seq<StepDef>) returns (duplicate: Option<Id>)
    ensures duplicate.None? <==> UniqueIds(steps)
    ensures duplicate.Some? ==> FirstDuplicate(steps, duplicate.value)
  {
    var seen: set<Id> := {};
    var i := 0;
    while i < |steps|
      invariant 0 <= i <= |steps|
      invariant forall n :: n in seen <==> exists k :: 0 <= k < i && steps[k].id == n
      invariant UniqueIds(steps[..i])
    {
      if steps[i].id in seen {
        assert RepeatsAt(steps, i, steps[i].id);
        return Some(steps[i].id);
      }
      assert forall k :: 0 <= k < i ==> steps[k].id in seen;
      seen := seen + {steps[i].id};
      i := i + 1;
    }
    assert steps[..|steps|] == steps;
    return None;
  }

  /** Scans one dependency list. */
  method FindUnknown(ds: seq<Id>, stepIds: set<Id>) returns (unknown: Option<Id>, ghost at: nat)
    ensures unknown.None? <==> forall d :: d in ds ==> d in stepIds
    ensures unknown.Some? ==> at < |ds| && ds[at] == unknown.value && unknown.value !in stepIds && forall k :: 0 <= k < at ==> ds[k] in stepIds
  {
    at := 0;
    var j := 0;
    while j < |ds|
      invariant 0 <= j <= |ds|
      invariant forall k :: 0 <= k < j ==> ds[k] in stepIds
    {
      if ds[j] !in stepIds {
        return Some(ds[j]), j;
      }
      j := j + 1;
    }
    return None, 0;
  }

  ghost predicate AllKnown(steps: seq<StepDef>) {
    forall k, d :: 0 <= k < |steps| && d in steps[k].dependsOn ==> d in GraphOf(steps).deps
  }

  lemma AllKnownIsClosed(steps: seq<StepDef>)
    requires UniqueIds(steps)
    ensures AllKnown(steps) <==> Closed(GraphOf(steps))
  {
    GraphOfUnique(steps);
    GraphOfIsWellFormed(steps);
    var g := GraphOf(steps);
    forall n, d | AllKnown(steps) && n in g.deps && d in g.deps[n] ensures d in g.deps {
      var s :| s in steps && s.id == n;
      var k :| 0 <= k < |steps| && steps[k] == s;
      assert g.deps[n] == steps[k].dependsOn;
    }
    forall k, d | Closed(g) && 0 <= k < |steps| && d in steps[k].dependsOn ensures d in g.deps {
      assert d in g.deps[steps[k].id];
    }
  }

  lemma UnknownIsOpen(steps: seq<StepDef>, k: nat, m: nat)
    requires UniqueIds(steps) && k < |steps| && m < |steps[k].dependsOn| && steps[k].dependsOn[m] !in GraphOf(steps).deps
    ensures !Closed(GraphOf(steps))
  {
    GraphOfUnique(steps);
    assert GraphOf(steps).deps[steps[k].id] == steps[k].dependsOn;
  }

  /** The stage at which an error is found says what holds of the steps. */
  lemma ReportFacts(steps: seq<StepDef>, e: ParseError)
    requires ReportsOnSteps(steps, e)
    ensures e.DuplicateStepId? <==> !UniqueIds(steps)
    ensures e.InvalidDependency? <==> UniqueIds(steps) && !Closed(GraphOf(steps))
    ensures e.CycleDetected? <==> ShapeOk(steps) && !Acyclic(GraphOf(steps))
    ensures e.MaxDepthExceeded? <==> ShapeOk(steps) && Acyclic(GraphOf(steps)) && MaxDepth.TooDeep(GraphOf(steps))
    ensures e.ExpressionError? ==> !TemplatesOk(steps)
  {
    match e {
      case InvalidDependency(step, dependency) =>
        var k: nat, m: nat :| UnknownAt(steps, k, m, step, dependency);
        UnknownIsOpen(steps, k, m);
      case MaxDepthExceeded(actualDepth) =>
        var n :| n in GraphOf(steps).deps && MaxDepth.ChainOfLength(GraphOf(steps), n, actualDepth);
      case _ =>
    }
  }

  lemma OneDuplicate(steps: seq<StepDef>, id: Id, other: Id)
    requires FirstDuplicate(steps, id) && FirstDuplicate(steps, other)
    ensures id == other
  {
    var i :| 0 <= i < |steps| && RepeatsAt(steps, i, id);
    var j :| 0 <= j < |steps| && RepeatsAt(steps, j, other);
    RepeatsOnce(steps, i, id, j);
    RepeatsOnce(steps, j, other, i);
  }

  lemma RepeatsOnce(steps: seq<StepDef>, i: nat, id: Id, j: nat)
    requires i < |steps| && j < |steps| && RepeatsAt(steps, i, id) && UniqueIds(steps[..j])
    ensures j <= i
  {
    assert forall k :: 0 <= k < j ==> steps[k] == steps[..j][k];
  }

  lemma OneUnknown(steps: seq<StepDef>, step: Id, dependency: Id, step': Id, dependency': Id)
    requires FirstUnknown(steps, step, dependency) && FirstUnknown(steps, step', dependency')
    ensures step == step' && dependency == dependency'
  {
    var k: nat, m: nat :| UnknownAt(steps, k, m, step, dependency);
    var k': nat, m': nat :| UnknownAt(steps, k', m', step', dependency');
    assert steps[k].dependsOn[m] in steps[k].dependsOn && steps[k'].dependsOn[m'] in steps[k'].dependsOn;
  }

  lemma OneBadTemplate(steps: seq<StepDef>, step: Id, other: Id)
    requires FirstBadTemplate(steps, step) && FirstBadTemplate(steps, other)
    ensures step == other
  {
    var i :| 0 <= i < |steps| && steps[i].id == step && !steps[i].config.templatesOk && TemplatesOk(steps[..i]);
    var j :| 0 <= j < |steps| && steps[j].id == other && !steps[j].config.templatesOk && TemplatesOk(steps[..j]);
    assert forall k :: 0 <= k < i ==> steps[k] == steps[..i][k];
    assert forall k :: 0 <= k < j ==> steps[k] == steps[..j][k];
  }

  lemma OneBadStep(raw: seq<RawStep>, i: nat, j: nat)
    requires FirstBadStep(raw, i) && FirstBadStep(raw, j)
    ensures i == j
  {
    assert forall k :: 0 <= k < i ==> raw[k] == raw[..i][k];
    assert forall k :: 0 <= k < j ==> raw[k] == raw[..j][k];
  }

  lemma OneErrorOnSteps(steps: seq<StepDef>, e: ParseError, f: ParseError)
    requires ReportsOnSteps(steps, e) && ReportsOnSteps(steps, f)
    ensures e == f || (e.CycleDetected? && f.CycleDetected?)
  {
    ReportFacts(steps, e);
    ReportFacts(steps, f);
    match e {
      case DuplicateStepId(id) => OneDuplicate(steps, id, f.id);
      case InvalidDependency(step, dependency) => OneUnknown(steps, step, dependency, f.step, f.dependency);
      case ExpressionError(step) => OneBadTemplate(steps, step, f.step);
      case MaxDepthExceeded(actualDepth) => OneLongest(GraphOf(steps), actualDepth, f.actualDepth);
      case _ =>
    }
  }

  lemma OneLongest(g: Graph, j: nat, k: nat)
    requires MaxDepth.LongestChain(g, j) && MaxDepth.LongestChain(g, k)
    ensures j == k
  {
  }

  /**
   The error is determined by the definition, except for which cycle is shown: the checks are made in a
   fixed order and each reports the first place that breaks it. A definition with an error is not accepted.
   */
  lemma ErrorIsDetermined(raw: seq<RawStep>, maxSteps: nat, e: ParseError, f: ParseError)
    requires Reports(raw, maxSteps, e) && Reports(raw, maxSteps, f)
    ensures e == f || (e.CycleDetected? && f.CycleDetected?)
    ensures !Accepted(raw, maxSteps)
  {
    if 1 <= |raw| <= maxSteps {
      if AllWellTyped(raw) {
        OneErrorOnSteps(StepsOf(raw), e, f);
        ReportFacts(StepsOf(raw), e);
      } else {
        OneBadStep(raw, e.index, f.index);
      }
    }
  }

  /** An error that the parser does not turn into one of its own: exactly when the first bad step has such a type. */
  lemma UncaughtErrorIff(raw: seq<RawStep>, maxSteps: nat, e: ParseError)
    requires Reports(raw, maxSteps, e)
    ensures e.UncaughtTypeError? <==>
      1 <= |raw| <= maxSteps && exists i: nat :: FirstBadStep(raw, i) && raw[i].UnhashableType?
  {
  }

  lemma UnhashableTypeIsUncaught()
    ensures Reports([UnhashableType], 50, UncaughtTypeError(0))
  {
  }

  /** Looks for a dependency on a step that does not exist, in any list of steps. */
  method FindUnknownDependency(steps: seq<StepDef>) returns (unknown: Option<(Id, Id)>)
    ensures unknown.None? <==> AllKnown(steps)
    ensures unknown.Some? ==> FirstUnknown(steps, unknown.value.0, unknown.value.1)
    ensures UniqueIds(steps) ==> (unknown.None? <==> Closed(GraphOf(steps)))
  {
    GraphOfIsWellFormed(steps);
    if UniqueIds(steps) {
      AllKnownIsClosed(steps);
    }
    var stepIds := set s | s in steps :: s.id;
    assert forall n :: n in stepIds <==> n in GraphOf(steps).deps;
    var i := 0;
    while i < |steps|
      invariant 0 <= i <= |steps|
      invariant forall k, d :: 0 <= k < i && d in steps[k].dependsOn ==> d in stepIds
    {
      var missing;
      ghost var at;
      missing, at := FindUnknown(steps[i].dependsOn, stepIds);
      if missing.Some? {
        assert UnknownAt(steps, i, at, steps[i].id, missing.value);
        assert !AllKnown(steps);
        return Some((steps[i].id, missing.value));
      }
      i := i + 1;
    }
    return None;
  }

  method FindBadTemplate(steps: seq<StepDef>) returns (bad: Option<Id>)
    ensures bad.None? <==> TemplatesOk(steps)
    ensures bad.Some? ==> FirstBadTemplate(steps, bad.value)
  {
    var i := 0;
    while i < |steps|
      invariant 0 <= i <= |steps|
      invariant forall k :: 0 <= k < i ==> steps[k].config.templatesOk
    {
      if !steps[i].config.templatesOk {
        return Some(steps[i].id);
      }
      i := i + 1;
    }
    return None;
  }

  /** Accepts exactly the definitions that satisfy all rules; otherwise reports the first rule broken. */
  method ParseWorkflowDefinition(raw: seq<RawStep>, maxSteps: nat) returns (r: Result<seq<StepDef>, ParseError>)
    ensures r.Ok? <==> Accepted(raw, maxSteps)
    ensures r.Ok? ==> r.value == StepsOf(raw)
    ensures r.Err? ==> Reports(raw, maxSteps, r.error)
  {
    if |raw| == 0 {
      return Err(NoSteps);
    }
    if |raw| > maxSteps {
      return Err(TooManySteps(|raw|));
    }
    r := ParseSteps(raw);
    if r.Err? {
      return;
    }
    var steps := r.value;
    var shapeError := CheckShape(steps);
    if shapeError.Some? {
      return Err(shapeError.value);
    }
    var graphError := CheckGraph(steps);
    if graphError.Some? {
      return Err(graphError.value);
    }
    var bad := FindBadTemplate(steps);
    if bad.Some? {
      return Err(ExpressionError(bad.value));
    }
  }

  /** Unique ids, then known dependencies. */
  method CheckShape(steps: seq<StepDef>) returns (e: Option<ParseError>)
    ensures e.None? <==> ShapeOk(steps)
    ensures e.Some? ==> ReportsOnSteps(steps, e.value) && (e.value.DuplicateStepId? || e.value.InvalidDependency?)
  {
    var duplicate := FindDuplicate(steps);
    if duplicate.Some? {
      return Some(DuplicateStepId(duplicate.value));
    }
    var unknown := FindUnknownDependency(steps);
    if unknown.Some? {
      return Some(InvalidDependency(unknown.value.0, unknown.value.1));
    }
    return None;
  }

  /** Cycles, then depth. */
  method CheckGraph(steps: seq<StepDef>) returns (e: Option<ParseError>)
    requires ShapeOk(steps)
    ensures e.None? <==> Acyclic(GraphOf(steps)) && !MaxDepth.TooDeep(GraphOf(steps))
    ensures e.Some? ==> ReportsOnSteps(steps, e.value) && (e.value.CycleDetected? || e.value.MaxDepthExceeded?)
  {
    var g := BuildDependencyGraph(steps);
    var cycle := CycleDetection.DetectCycles(g);
    if cycle.Some? {
      return Some(CycleDetected(cycle.value));
    }
    var exceeded := MaxDepth.ValidateMaxDepth(g);
    if exceeded.Some? {
      return Some(MaxDepthExceeded(exceeded.value));
    }
    return None;
  }
}
