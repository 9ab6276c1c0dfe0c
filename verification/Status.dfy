/** The two status tables and the paths they allow. */
module Status {

  datatype ExecStatus = ExecPending | ExecRunning | ExecCompleted | ExecFailed | ExecCancelled

  datatype StepStatus = Pending | Queued | Running | Completed | Failed | Skipped

  function ExecTargets(s: ExecStatus): set<ExecStatus> {
    match s
    case ExecPending => {ExecRunning, ExecCancelled}
    case ExecRunning => {ExecCompleted, ExecFailed, ExecCancelled}
    case _ => {}
  }

  function StepTargets(s: StepStatus): set<StepStatus> {
    match s
    case Pending => {Queued, Skipped}
    case Queued => {Running, Skipped}
    case Running => {Completed, Failed, Skipped}
    case Failed => {Queued}
    case Completed => {}
    case Skipped => {}
  }

  predicate ExecAllowed(from: ExecStatus, to: ExecStatus) {
    to in ExecTargets(from)
  }

  predicate StepAllowed(from: StepStatus, to: StepStatus) {
    to in StepTargets(from)
  }

  predicate ExecTerminal(s: ExecStatus) {
    s.ExecCompleted? || s.ExecFailed? || s.ExecCancelled?
  }

  /** The statuses a row has held, oldest first, are a path in the table. */
  ghost predicate ExecPath(trail: seq<ExecStatus>) {
    forall i, j :: 0 <= i < j < |trail| && j == i + 1 ==> ExecAllowed(trail[i], trail[j])
  }

  ghost predicate StepPath(trail: seq<StepStatus>) {
    forall i, j :: 0 <= i < j < |trail| && j == i + 1 ==> StepAllowed(trail[i], trail[j])
  }

  /** The tables read from the other side: what may come before each status. */
  lemma MovesInto(a: StepStatus, b: StepStatus, c: ExecStatus, d: ExecStatus)
    ensures StepAllowed(a, b) <==>
      || (b == Queued && a in {Pending, Failed})
      || (b == Running && a == Queued)
      || (b in {Completed, Failed} && a == Running)
      || (b == Skipped && a in {Pending, Queued, Running})
    ensures ExecAllowed(c, d) <==>
      || (d == ExecRunning && c == ExecPending)
      || (d in {ExecCompleted, ExecFailed} && c == ExecRunning)
      || (d == ExecCancelled && c in {ExecPending, ExecRunning})
  {
  }

  lemma StepPathGrows(trail: seq<StepStatus>, s: StepStatus)
    requires StepPath(trail) && trail != [] && StepAllowed(trail[|trail|-1], s)
    ensures StepPath(trail + [s])
  {
  }

  /** An execution path ends at its first terminal status, within three entries. */
  lemma ExecPathIsShort(trail: seq<ExecStatus>)
    requires ExecPath(trail)
    ensures |trail| <= 3
    ensures forall i :: 0 <= i < |trail| && ExecTerminal(trail[i]) ==> i == |trail| - 1
  {
    if |trail| > 3 {
      assert ExecAllowed(trail[0], trail[1]) && ExecAllowed(trail[1], trail[2]) && ExecAllowed(trail[2], trail[3]);
    }
    forall i | 0 <= i < |trail| - 1 ensures !ExecTerminal(trail[i]) {
      assert ExecAllowed(trail[i], trail[i+1]);
    }
  }

  /** Completed and skipped are final for a step, and every re-run is preceded by a failure. */
  lemma StepPathShape(trail: seq<StepStatus>, i: nat, j: nat)
    requires StepPath(trail) && i < j < |trail|
    ensures trail[i] != Completed && trail[i] != Skipped
    ensures trail[i] == Running && trail[j] == Running ==> Failed in trail[i..j]
  {
    assert StepAllowed(trail[i], trail[i+1]);
    if trail[i] == Running {
      assert trail[i+1] in {Completed, Failed, Skipped};
      if i + 1 < j {
        assert StepAllowed(trail[i+1], trail[i+2]);
        assert trail[i..j][1] == trail[i+1];
      }
    }
  }
}
