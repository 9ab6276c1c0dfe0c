/**
 The stale sweep and the step table: it fails pending and queued steps directly, which the table does not
 allow. Everything else that writes to the store stays inside the table.
 */
module SweepLaws {
  import opened Common
  import opened Status
  import opened Engine
  import opened RunProperties
  import opened RunTheorems
  import opened RunLaws
  import opened Lifecycle

  predicate Waiting(s: StepStatus) {
    s.Pending? || s.Queued?
  }

  /** All step histories of the record are paths in the step table. */
  ghost predicate InTable(r: Record) {
    forall n :: n in r.rows ==> TrailOk(r.rows[n])
  }

  ghost predicate AllInTable(db: Db) {
    forall id :: id in db ==> InTable(db[id])
  }

  // ---- One record ----

  lemma SweptRow(row: StepRow)
    requires TrailOk(row) && Active(row.status)
    ensures StepPath(Move(row, Failed).trail) <==> !Waiting(row.status)
  {
    var trail := row.trail + [Failed];
    if row.status.Running? {
      StepPathGrows(row.trail, Failed);
    } else {
      assert trail[|trail|-2] == row.status && trail[|trail|-1] == Failed && !StepAllowed(row.status, Failed);
    }
  }

  /** A sweep keeps the histories of a record inside the table if and only if no step is pending or queued. */
  lemma SweptRecordIff(r: Record)
    requires InTable(r)
    ensures InTable(SweepRecord(r)) <==> forall n :: n in r.rows ==> !Waiting(r.rows[n].status)
  {
    var swept := SweepRecord(r);
    forall n | n in r.rows ensures TrailOk(swept.rows[n]) <==> !Waiting(r.rows[n].status) {
      if Active(r.rows[n].status) {
        SweptRow(r.rows[n]);
      }
    }
  }

  // ---- One action ----

  /** The sweep finds a stale execution with a pending or queued step. */
  ghost predicate HitsWaiting(db: Db, now: int) {
    exists id :: id in db && IsStale(db[id], now) && HasWaiting(db[id])
  }

  ghost predicate HasWaiting(r: Record) {
    exists n :: n in r.rows && Waiting(r.rows[n].status)
  }

  lemma SweepKeepsTableIff(db: Db, now: int)
    requires AllInTable(db)
    ensures AllInTable(Apply(db, Sweep(now))) <==> !HitsWaiting(db, now)
  {
    var after := Apply(db, Sweep(now));
    forall id | id in db ensures InTable(after[id]) <==> !(IsStale(db[id], now) && HasWaiting(db[id])) {
      assert InTable(db[id]);
      if IsStale(db[id], now) {
        SweptRecordIff(db[id]);
      }
    }
  }

  lemma RunInTable(record: Record)
    requires FromRun(record)
    ensures InTable(record)
  {
    var oracle, plan, trigger, tenant, depth :| RecordOfRun(record, oracle, plan, trigger, tenant, depth);
    var r := RunDag(oracle, plan, trigger, tenant, depth);
    var done := RunOutcome(oracle, plan, trigger, tenant, depth);
    forall n | n in record.rows ensures TrailOk(record.rows[n]) {
      StatusesFollowTables(oracle, plan, Base(trigger, tenant, depth), r, done, n);
    }
  }

  lemma CancelInTable(r: Record)
    requires InTable(r)
    ensures InTable(CancelRecord(r))
  {
    forall n | n in r.rows && Active(r.rows[n].status) ensures TrailOk(Move(r.rows[n], Skipped)) {
      MoveKeepsTrail(r.rows[n], Skipped);
    }
  }

  lemma WorkedInTable(row: StepRow, result: WorkResult)
    requires TrailOk(row) && row.status.Queued?
    ensures TrailOk(WorkedRow(row, result))
  {
    MoveKeepsTrail(row, Running);
    MoveKeepsTrail(Move(row, Running), Failed);
    MoveKeepsTrail(Move(row, Running), Completed);
  }

  lemma WorkKeepsTable(db: Db, id: Id, step: Id, contextOf: Id, result: WorkResult)
    requires AllInTable(db) && Workable(db, id, step, contextOf)
    ensures AllInTable(WorkDb(db, id, step, contextOf, result))
  {
    var after := WorkDb(db, id, step, contextOf, result);
    assert InTable(db[id]);
    WorkedInTable(db[id].rows[step], result);
    forall k | k in after ensures InTable(after[k]) {
      assert k in db && InTable(db[k]);
    }
  }

  /** Runs, aborted runs, cancellations and worker tasks never leave the step table. */
  lemma OthersKeepTable(db: Db, a: Action)
    requires AllInTable(db) && Possible(db, a) && !a.Sweep?
    ensures AllInTable(Apply(db, a))
  {
    match a {
      case Run(id, record) => RunInTable(record);
      case AbortedRun(id, record) =>
      case Cancel(id, tenant) =>
        if Visible(db, id, tenant) {
          assert InTable(db[id]);
          CancelInTable(db[id]);
        }
      case Work(id, step, contextOf, result) =>
        if Workable(db, id, step, contextOf) {
          WorkKeepsTable(db, id, step, contextOf, result);
        }
      case Sweep(_) =>
    }
  }

  /** The moves that lead from one state of a row to the next are table moves. */
  ghost predicate MovesInTable(a: StepRow, b: StepRow) {
    a.trail != [] && a.trail <= b.trail && StepPath(b.trail[|a.trail|-1..])
  }

  lemma OneMoveInTable(row: StepRow, s: StepStatus)
    requires RowOk(row)
    ensures StepAllowed(row.status, s) ==> MovesInTable(row, Move(row, s))
    ensures MovesInTable(row, row)
  {
    var suffix := Move(row, s).trail[|row.trail|-1..];
    assert suffix == [row.status, s];
    assert row.trail[|row.trail|-1..] == [row.status];
  }

  lemma WorkMovesInTable(row: StepRow, result: WorkResult)
    requires RowOk(row) && row.status.Queued?
    ensures MovesInTable(row, WorkedRow(row, result))
  {
    var worked := WorkedRow(row, result);
    assert worked.trail[|row.trail|-1..] == [Queued, Running, worked.status];
  }

  /** Whatever has happened before, only the sweep ever writes a move outside the table. */
  lemma OnlySweepsLeaveTable(db: Db, a: Action, id: Id, n: Id)
    requires Consistent(db) && !a.Sweep? && id in db && n in db[id].rows
    ensures id in Apply(db, a) && n in Apply(db, a)[id].rows
    ensures MovesInTable(db[id].rows[n], Apply(db, a)[id].rows[n])
  {
    assert RecordOk(db[id]);
    var row := db[id].rows[n];
    OneMoveInTable(row, Skipped);
    if a.Work? && Workable(db, a.id, a.step, a.contextOf) && a.id == id && a.step == n {
      WorkMovesInTable(row, a.result);
    }
  }

  lemma ActionKeepsTableIff(db: Db, a: Action)
    requires AllInTable(db) && Possible(db, a)
    ensures AllInTable(Apply(db, a)) <==> !(a.Sweep? && HitsWaiting(db, a.now))
  {
    if a.Sweep? {
      SweepKeepsTableIff(db, a.now);
    } else {
      OthersKeepTable(db, a);
    }
  }

  // ---- Every history ----

  /** Histories only grow, so one that has left the table never comes back. */
  lemma OutsideStaysOutside(a: Db, b: Db)
    requires Consistent(a) && Evolves(a, b) && !AllInTable(a)
    ensures !AllInTable(b)
  {
    var id :| id in a && !InTable(a[id]);
    var n :| n in a[id].rows && !TrailOk(a[id].rows[n]);
    assert RecordOk(a[id]) && RecordEvolves(a[id], b[id]);
    assert RowEvolves(a[id].rows[n], b[id].rows[n]);
    PrefixOfPath(a[id].rows[n].trail, b[id].rows[n].trail);
  }

  lemma PrefixOfPath(a: seq<StepStatus>, b: seq<StepStatus>)
    requires a <= b
    ensures StepPath(b) ==> StepPath(a)
  {
    assert forall i :: 0 <= i < |a| ==> a[i] == b[i];
  }

  ghost predicate NoSweepHitsWaiting(actions: seq<Action>) {
    forall i :: 0 <= i < |actions| && actions[i].Sweep? ==> !HitsWaiting(After(actions[..i]), actions[i].now)
  }

  lemma NoHitsSplit(actions: seq<Action>)
    requires actions != []
    ensures var init, last := actions[..|actions|-1], actions[|actions|-1];
      NoSweepHitsWaiting(actions) <==> NoSweepHitsWaiting(init) && !(last.Sweep? && HitsWaiting(After(init), last.now))
  {
    var init := actions[..|actions|-1];
    assert forall i :: 0 <= i < |init| ==> init[i] == actions[i] && init[..i] == actions[..i];
  }

  /**
   Main theorem: after any interleaving, every step history is a path in the step table if and only if no
   sweep so far has found a stale execution with a pending or queued step.
   */
  lemma {:induction false} HistoriesInTableIff(actions: seq<Action>)
    requires PossibleHistory(actions)
    ensures AllInTable(After(actions)) <==> NoSweepHitsWaiting(actions)
  {
    if actions != [] {
      var init, last := actions[..|actions|-1], actions[|actions|-1];
      PossiblePrefix(actions, |actions| - 1);
      HistoriesInTableIff(init);
      NoHitsSplit(actions);
      HistoryIsConsistent(init);
      if AllInTable(After(init)) {
        ActionKeepsTableIff(After(init), last);
      } else {
        ActionKeeps(After(init), last);
        OutsideStaysOutside(After(init), After(actions));
      }
    }
  }

  // ---- Where it fails ----

  const PENDING_ROW := StepRow(Pending, 1, 3, None, None, [Pending])
  const ABORTED := Record(0, Some(0),
    ExecRow(ExecRunning, None, Context(0, map[], 0, 0), [ExecPending, ExecRunning]), map[1 := PENDING_ROW])

  /** A run is committed while its only step is still pending, and swept more than an hour later. */
  lemma SweepLeavesTable()
    ensures var actions := [AbortedRun(1, ABORTED), Sweep(3601)];
      && PossibleHistory(actions) && After(actions).Keys == {1} && After(actions)[1].rows.Keys == {1}
      && After(actions)[1].rows[1].trail == [Pending, Failed] && !StepAllowed(Pending, Failed)
      && !AllInTable(After(actions))
  {
    var first, actions := [AbortedRun(1, ABORTED)], [AbortedRun(1, ABORTED), Sweep(3601)];
    assert actions[..1] == first && actions[..0] == first[..0] == [];
    assert FromAbortedRun(ABORTED);
    assert After(first) == map[1 := ABORTED];
    assert After(actions) == Apply(map[1 := ABORTED], Sweep(3601));
    var trail := After(actions)[1].rows[1].trail;
    assert trail == [Pending, Failed] && trail[0] == Pending && trail[1] == Failed;
    assert !StepPath(trail);
    assert !InTable(After(actions)[1]);
  }
}
