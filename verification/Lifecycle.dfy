/**
 The shared store under all its writers: whole runs, runs aborted midway, cancellations, the stale
 sweep and the worker's single-step task. One action is one committed transaction.
 */
module Lifecycle {
  import opened Common
  import opened Status
  import opened Engine
  import opened RunProperties
  import opened RunTheorems
  import opened RunLaws

  /** Times are in seconds. An execution without a start time is never stale. */
  datatype Record = Record(tenant: Id, startedAt: Option<int>, exec: ExecRow, rows: map<Id, StepRow>)

  const STALE_THRESHOLD := 3600

  type Db = map<Id, Record>

  /** What the worker's executor does with the step it was given. */
  datatype WorkResult = Unsupported | Executed(outcome: Outcome)

  datatype Action =
    | Run(id: Id, record: Record)
    | AbortedRun(id: Id, record: Record)
    | Cancel(id: Id, tenant: Id)
    | Sweep(now: int)
    | Work(id: Id, step: Id, contextOf: Id, result: WorkResult)

  predicate Active(s: StepStatus) {
    s.Pending? || s.Queued? || s.Running?
  }

  // ---- The effect of each action ----

  function CancelRecord(r: Record): Record {
    Record(r.tenant, r.startedAt, r.exec.(status := ExecCancelled, trail := r.exec.trail + [ExecCancelled]),
           map n | n in r.rows :: if Active(r.rows[n].status) then Move(r.rows[n], Skipped) else r.rows[n])
  }

  function SweepRecord(r: Record): Record {
    Record(r.tenant, r.startedAt, r.exec.(status := ExecFailed, trail := r.exec.trail + [ExecFailed]),
           map n | n in r.rows ::
             if Active(r.rows[n].status) then Move(r.rows[n], Failed).(error := Some(Stale)) else r.rows[n])
  }

  /** Running, and started longer ago than the threshold. */
  predicate IsStale(r: Record, now: int) {
    r.exec.status.ExecRunning? && r.startedAt.Some? && r.startedAt.value < now - STALE_THRESHOLD
  }

  /** An execution of another tenant is not found. */
  predicate Visible(db: Db, id: Id, tenant: Id) {
    id in db && db[id].tenant == tenant
  }

  /** The step row after the worker has run it. */
  function WorkedRow(row: StepRow, result: WorkResult): StepRow {
    var started := Move(row, Running);
    match result
    case Unsupported => Move(started, Failed).(error := Some(External(0)))
    case Executed(Success(output)) => Move(started, Completed).(output := Some(output))
    case Executed(Failure(fault)) =>
      Move(started, Failed).(error := Some(fault), attempt := (if row.attempt == 0 then 1 else row.attempt) + 1)
  }

  function WithRow(db: Db, id: Id, step: Id, row: StepRow): Db
    requires id in db
  {
    db[id := db[id].(rows := db[id].rows[step := row])]
  }

  function WithStepOutput(db: Db, id: Id, step: Id, output: Output): Db
    requires id in db
  {
    var c := db[id].exec.context;
    db[id := db[id].(exec := db[id].exec.(context := c.(steps := c.steps[step := output])))]
  }

  /** The worker only takes up a queued step whose two rows it can find. */
  predicate Workable(db: Db, id: Id, step: Id, contextOf: Id) {
    id in db && step in db[id].rows && contextOf in db && db[id].rows[step].status.Queued?
  }

  function WorkDb(db: Db, id: Id, step: Id, contextOf: Id, result: WorkResult): Db {
    if !Workable(db, id, step, contextOf) then db
    else
      var after := WithRow(db, id, step, WorkedRow(db[id].rows[step], result));
      match result
      case Executed(Success(output)) => WithStepOutput(after, contextOf, step, output)
      case _ => after
  }

  /** The store after one transaction; a refused request changes nothing. */
  function Apply(db: Db, a: Action): Db {
    match a
    case Run(id, record) => if id in db then db else db[id := record]
    case AbortedRun(id, record) => if id in db then db else db[id := record]
    case Cancel(id, tenant) =>
      if Visible(db, id, tenant) && ExecAllowed(db[id].exec.status, ExecCancelled) then db[id := CancelRecord(db[id])]
      else db
    case Sweep(now) =>
      map id | id in db :: if IsStale(db[id], now) then SweepRecord(db[id]) else db[id]
    case Work(id, step, contextOf, result) => WorkDb(db, id, step, contextOf, result)
  }

  // ---- What runs commit ----

  /** The step table, and the one move outside it: the sweep fails pending and queued steps directly. */
  predicate LifeAllowed(from: StepStatus, to: StepStatus) {
    StepAllowed(from, to) || ((from.Pending? || from.Queued?) && to.Failed?)
  }

  ghost predicate LifePath(trail: seq<StepStatus>) {
    forall i, j :: 0 <= i < j < |trail| && j == i + 1 ==> LifeAllowed(trail[i], trail[j])
  }

  ghost predicate RowOk(row: StepRow) {
    row.trail != [] && row.trail[|row.trail|-1] == row.status && LifePath(row.trail)
  }

  ghost predicate ExecOk(e: ExecRow) {
    e.trail != [] && e.trail[|e.trail|-1] == e.status && ExecPath(e.trail)
  }

  predicate StepFits(e: ExecStatus, s: StepStatus) {
    && ((e.ExecCompleted? || e.ExecCancelled?) ==> !Active(s))
    && (e.ExecFailed? ==> !s.Queued? && !s.Running?)
  }

  /**
   The invariant of the store: histories are legal, a completed or cancelled execution has no pending,
   queued or running step, and a failed one has no queued or running step.
   */
  ghost predicate RecordOk(r: Record) {
    && ExecOk(r.exec)
    && forall n :: n in r.rows ==> RowOk(r.rows[n]) && StepFits(r.exec.status, r.rows[n].status)
  }

  ghost predicate Consistent(db: Db) {
    forall id :: id in db ==> RecordOk(db[id])
  }

  /** A record that a finished run leaves behind. */
  ghost predicate FromRun(record: Record) {
    exists oracle, plan, trigger, tenant, depth :: RecordOfRun(record, oracle, plan, trigger, tenant, depth)
  }

  ghost predicate RecordOfRun(record: Record, oracle: Oracle, plan: Plan, trigger: nat, tenant: Id, depth: nat) {
    && ValidPlan(plan)
    && var r := RunDag(oracle, plan, trigger, tenant, depth);
       record.tenant == tenant && record.exec == r.exec && record.rows == r.rows
  }

  /** A record committed while its run was still under way: any rows the retry loop can have written. */
  ghost predicate FromAbortedRun(record: Record) {
    && ExecOk(record.exec) && !ExecTerminal(record.exec.status)
    && forall n :: n in record.rows ==> TrailOk(record.rows[n])
  }

  ghost predicate Possible(db: Db, a: Action) {
    && (a.Run? ==> FromRun(a.record))
    && (a.AbortedRun? ==> FromAbortedRun(a.record))
  }

  lemma TablePathIsLifePath(trail: seq<StepStatus>)
    requires StepPath(trail)
    ensures LifePath(trail)
  {
  }

  /** What a run commits satisfies the invariant. */
  lemma RunIsConsistent(record: Record)
    requires FromRun(record)
    ensures RecordOk(record)
  {
    var oracle, plan, trigger, tenant, depth :| RecordOfRun(record, oracle, plan, trigger, tenant, depth);
    var r := RunDag(oracle, plan, trigger, tenant, depth);
    var base := Base(trigger, tenant, depth);
    var done := RunOutcome(oracle, plan, trigger, tenant, depth);
    forall n | n in r.rows ensures RowOk(r.rows[n]) && StepFits(r.exec.status, r.rows[n].status) {
      StatusesFollowTables(oracle, plan, base, r, done, n);
      TablePathIsLifePath(r.rows[n].trail);
      RunRowFits(oracle, plan, base, r, done, n);
    }
    RunExecOk(oracle, plan, base, r, done);
  }

  lemma RunExecOk(oracle: Oracle, plan: Plan, base: Context, r: RunState, done: nat)
    requires ValidPlan(plan) && Ended(oracle, plan, base, r, done)
    ensures ExecOk(r.exec)
  {
  }

  lemma RunRowFits(oracle: Oracle, plan: Plan, base: Context, r: RunState, done: nat, n: Id)
    requires ValidPlan(plan) && Ended(oracle, plan, base, r, done) && n in plan.defs
    ensures n in r.rows && StepFits(r.exec.status, r.rows[n].status)
  {
    var j := RowPosition(oracle, plan, base, r, done, n);
    if j < done {
      SkippedIffRuledOut(oracle, plan, base, r, done, j);
      if !r.rows[n].status.Skipped? {
        ExecutedStepResult(oracle, plan, base, r, done, j);
      }
    }
  }

  // ---- One action ----

  /** What may happen to one record between two moments. */
  ghost predicate RecordEvolves(a: Record, b: Record) {
    && a.tenant == b.tenant && a.startedAt == b.startedAt
    && a.exec.trail <= b.exec.trail
    && (ExecTerminal(a.exec.status) ==> b.exec.status == a.exec.status && b.exec.trail == a.exec.trail)
    && a.rows.Keys == b.rows.Keys
    && forall n :: n in a.rows ==> RowEvolves(a.rows[n], b.rows[n])
  }

  ghost predicate RowEvolves(a: StepRow, b: StepRow) {
    && a.trail <= b.trail
    && (a.status.Completed? || a.status.Skipped? ==> b == a)
  }

  ghost predicate Evolves(a: Db, b: Db) {
    a.Keys <= b.Keys && forall id :: id in a ==> RecordEvolves(a[id], b[id])
  }

  lemma MoveIsLegal(row: StepRow, s: StepStatus)
    requires RowOk(row) && LifeAllowed(row.status, s)
    ensures RowOk(Move(row, s))
  {
  }

  lemma ExecMoveIsLegal(e: ExecRow, s: ExecStatus)
    requires ExecOk(e) && ExecAllowed(e.status, s)
    ensures ExecOk(e.(status := s, trail := e.trail + [s]))
  {
  }

  lemma CancelKeeps(r: Record)
    requires RecordOk(r) && ExecAllowed(r.exec.status, ExecCancelled)
    ensures RecordOk(CancelRecord(r)) && RecordEvolves(r, CancelRecord(r))
  {
    ExecMoveIsLegal(r.exec, ExecCancelled);
    forall n | n in r.rows && Active(r.rows[n].status) ensures RowOk(Move(r.rows[n], Skipped)) {
      MoveIsLegal(r.rows[n], Skipped);
    }
  }

  lemma SweepKeeps(r: Record)
    requires RecordOk(r) && r.exec.status.ExecRunning?
    ensures RecordOk(SweepRecord(r)) && RecordEvolves(r, SweepRecord(r))
  {
    ExecMoveIsLegal(r.exec, ExecFailed);
    forall n | n in r.rows && Active(r.rows[n].status) ensures RowOk(Move(r.rows[n], Failed)) {
      MoveIsLegal(r.rows[n], Failed);
    }
  }

  lemma WorkKeepsRow(row: StepRow, result: WorkResult)
    requires RowOk(row) && row.status.Queued?
    ensures RowOk(WorkedRow(row, result)) && RowEvolves(row, WorkedRow(row, result))
    ensures !Active(WorkedRow(row, result).status)
  {
    MoveIsLegal(row, Running);
    MoveIsLegal(Move(row, Running), Failed);
    MoveIsLegal(Move(row, Running), Completed);
  }

  lemma EvolvesByNothing(db: Db)
    ensures Evolves(db, db)
  {
  }

  /** Replacing one record by a legal successor. */
  lemma ReplaceKeeps(db: Db, id: Id, r: Record)
    requires Consistent(db) && id in db && RecordOk(r) && RecordEvolves(db[id], r)
    ensures Consistent(db[id := r]) && Evolves(db, db[id := r])
  {
    EvolvesByNothing(db);
  }

  lemma InsertKeeps(db: Db, id: Id, r: Record)
    requires Consistent(db) && id !in db && RecordOk(r)
    ensures Consistent(db[id := r]) && Evolves(db, db[id := r])
  {
    EvolvesByNothing(db);
  }

  lemma RecordOkAt(db: Db, id: Id)
    requires Consistent(db) && id in db
    ensures RecordOk(db[id])
  {
  }

  lemma WorkedRecord(r: Record, step: Id, result: WorkResult)
    requires RecordOk(r) && step in r.rows && r.rows[step].status.Queued?
    ensures var after := r.(rows := r.rows[step := WorkedRow(r.rows[step], result)]);
      RecordOk(after) && RecordEvolves(r, after)
  {
    WorkKeepsRow(r.rows[step], result);
  }

  /** Writing to a context touches neither statuses nor steps. */
  lemma OutputRecord(r: Record, c: Context)
    requires RecordOk(r)
    ensures RecordOk(r.(exec := r.exec.(context := c))) && RecordEvolves(r, r.(exec := r.exec.(context := c)))
  {
  }

  lemma WorkKeeps(db: Db, id: Id, step: Id, contextOf: Id, result: WorkResult)
    requires Consistent(db) && Workable(db, id, step, contextOf)
    ensures Consistent(WorkDb(db, id, step, contextOf, result)) && Evolves(db, WorkDb(db, id, step, contextOf, result))
  {
    RecordOkAt(db, id);
    WorkedRecord(db[id], step, result);
    var row := WorkedRow(db[id].rows[step], result);
    var after := WithRow(db, id, step, row);
    ReplaceKeeps(db, id, db[id].(rows := db[id].rows[step := row]));
    if result.Executed? && result.outcome.Success? {
      var c := after[contextOf].exec.context;
      var c' := c.(steps := c.steps[step := result.outcome.output]);
      RecordOkAt(after, contextOf);
      OutputRecord(after[contextOf], c');
      ReplaceKeeps(after, contextOf, after[contextOf].(exec := after[contextOf].exec.(context := c')));
      EvolvesOnward(db, after, WithStepOutput(after, contextOf, step, result.outcome.output));
    }
  }

  lemma SweepAllKeeps(db: Db, now: int)
    requires Consistent(db)
    ensures Consistent(Apply(db, Sweep(now))) && Evolves(db, Apply(db, Sweep(now)))
  {
    EvolvesByNothing(db);
    forall id | id in db && IsStale(db[id], now)
      ensures RecordOk(SweepRecord(db[id])) && RecordEvolves(db[id], SweepRecord(db[id]))
    {
      RecordOkAt(db, id);
      SweepKeeps(db[id]);
    }
  }

  lemma AbortedRunIsConsistent(record: Record)
    requires FromAbortedRun(record)
    ensures RecordOk(record)
  {
    forall n | n in record.rows ensures RowOk(record.rows[n]) {
      TablePathIsLifePath(record.rows[n].trail);
    }
  }

  /** Every action keeps the invariant, and changes records only in legal ways. */
  lemma ActionKeeps(db: Db, a: Action)
    requires Consistent(db) && Possible(db, a)
    ensures Consistent(Apply(db, a)) && Evolves(db, Apply(db, a))
  {
    hide RecordOk, Evolves, Consistent, FromRun, FromAbortedRun, CancelRecord, SweepRecord;
    EvolvesByNothing(db);
    match a {
      case Run(id, record) =>
        RunIsConsistent(record);
        if id !in db {
          InsertKeeps(db, id, record);
        }
      case AbortedRun(id, record) =>
        AbortedRunIsConsistent(record);
        if id !in db {
          InsertKeeps(db, id, record);
        }
      case Cancel(id, tenant) =>
        if Visible(db, id, tenant) && ExecAllowed(db[id].exec.status, ExecCancelled) {
          RecordOkAt(db, id);
          CancelKeeps(db[id]);
          ReplaceKeeps(db, id, CancelRecord(db[id]));
        }
      case Sweep(now) =>
        SweepAllKeeps(db, now);
      case Work(id, step, contextOf, result) =>
        if Workable(db, id, step, contextOf) {
          WorkKeeps(db, id, step, contextOf, result);
        }
    }
  }

  // ---- Every history ----

  ghost function After(actions: seq<Action>): Db {
    if actions == [] then map[] else Apply(After(actions[..|actions|-1]), actions[|actions|-1])
  }

  ghost predicate PossibleHistory(actions: seq<Action>) {
    forall i :: 0 <= i < |actions| ==> Possible(After(actions[..i]), actions[i])
  }

  lemma {:induction false} HistoryIsConsistent(actions: seq<Action>)
    requires PossibleHistory(actions)
    ensures Consistent(After(actions))
  {
    if actions != [] {
      var init := actions[..|actions|-1];
      PossiblePrefix(actions, |actions| - 1);
      HistoryIsConsistent(init);
      ActionKeeps(After(init), actions[|actions|-1]);
    }
  }

  lemma PossiblePrefix(actions: seq<Action>, k: nat)
    requires PossibleHistory(actions) && k <= |actions|
    ensures PossibleHistory(actions[..k])
  {
    forall i | 0 <= i < k ensures Possible(After(actions[..k][..i]), actions[..k][i]) {
      assert actions[..k][..i] == actions[..i];
    }
  }

  lemma EvolvesOnward(a: Db, b: Db, c: Db)
    requires Evolves(a, b) && Evolves(b, c)
    ensures Evolves(a, c)
  {
    forall id | id in a ensures RecordEvolves(a[id], c[id]) {
      assert RecordEvolves(a[id], b[id]) && RecordEvolves(b[id], c[id]);
      forall n | n in a[id].rows ensures RowEvolves(a[id].rows[n], c[id].rows[n]) {
        assert RowEvolves(a[id].rows[n], b[id].rows[n]) && RowEvolves(b[id].rows[n], c[id].rows[n]);
      }
    }
  }

  /**
   Main theorem. In every interleaving of runs, aborted runs, cancellations, sweeps and worker tasks,
   between any two moments: no record disappears, a completed, failed or cancelled execution keeps its
   status, and a completed or skipped step keeps its whole row.
   */
  lemma {:induction false} FinalStatesStay(actions: seq<Action>, i: nat)
    requires PossibleHistory(actions) && i <= |actions|
    ensures Evolves(After(actions[..i]), After(actions)) && Consistent(After(actions))
    decreases |actions| - i
  {
    hide Evolves, Consistent, Possible, Apply;
    HistoryIsConsistent(actions);
    if i == |actions| {
      assert actions[..i] == actions;
      EvolvesByNothing(After(actions));
    } else {
      var init := actions[..|actions|-1];
      PossiblePrefix(actions, |actions| - 1);
      FinalStatesStay(init, i);
      assert init[..i] == actions[..i];
      ActionKeeps(After(init), actions[|actions|-1]);
      EvolvesOnward(After(actions[..i]), After(init), After(actions));
    }
  }

  // ---- The effect of each writer on the fields ----

  /** The execution is cancelled, its unfinished steps are skipped, and nothing else about the record changes. */
  ghost predicate IsCancelled(a: Record, b: Record) {
    && b.tenant == a.tenant && b.startedAt == a.startedAt
    && b.exec.status == ExecCancelled && b.exec.trail == a.exec.trail + [ExecCancelled]
    && b.exec.failedStep == a.exec.failedStep && b.exec.context == a.exec.context
    && b.rows.Keys == a.rows.Keys
    && forall n :: n in a.rows ==>
         if a.rows[n].status in {Pending, Queued, Running} then
           && b.rows[n].status == Skipped && b.rows[n].trail == a.rows[n].trail + [Skipped]
           && b.rows[n].output == a.rows[n].output && b.rows[n].error == a.rows[n].error
           && b.rows[n].attempt == a.rows[n].attempt && b.rows[n].maxAttempts == a.rows[n].maxAttempts
         else b.rows[n] == a.rows[n]
  }

  /** Running, and started more than an hour ago. */
  ghost predicate IsOverdue(r: Record, now: int) {
    r.exec.status == ExecRunning && r.startedAt.Some? && now - r.startedAt.value > 60 * 60
  }

  /** The execution and its unfinished steps have failed, and nothing else about the record changes. */
  ghost predicate IsSwept(a: Record, b: Record) {
    && b.tenant == a.tenant && b.startedAt == a.startedAt
    && b.exec.status == ExecFailed && b.exec.trail == a.exec.trail + [ExecFailed]
    && b.exec.failedStep == a.exec.failedStep && b.exec.context == a.exec.context
    && b.rows.Keys == a.rows.Keys
    && forall n :: n in a.rows ==>
         if a.rows[n].status in {Pending, Queued, Running} then
           && b.rows[n].status == Failed && b.rows[n].trail == a.rows[n].trail + [Failed]
           && b.rows[n].error == Some(Stale) && b.rows[n].output == a.rows[n].output
           && b.rows[n].attempt == a.rows[n].attempt && b.rows[n].maxAttempts == a.rows[n].maxAttempts
         else b.rows[n] == a.rows[n]
  }

  /**
   The step has run once: completed with the output, or failed with its error. Only a failure of the executor
   counts another attempt.
   */
  ghost predicate RowIsWorked(row: StepRow, done: StepRow, result: WorkResult) {
    && done.maxAttempts == row.maxAttempts
    && if result.Executed? && result.outcome.Success? then
         && done.status == Completed && done.trail == row.trail + [Running, Completed]
         && done.output == Some(result.outcome.output) && done.error == row.error && done.attempt == row.attempt
       else
         && done.status == Failed && done.trail == row.trail + [Running, Failed] && done.output == row.output
         && done.error.Some? && (result.Executed? ==> done.error.value == result.outcome.fault)
         && done.attempt == (if result.Unsupported? then row.attempt else if row.attempt == 0 then 2 else row.attempt + 1)
  }

  /** Statuses of executions, and everything that is not a step or a context, are as before. */
  ghost predicate SameOutline(a: Record, b: Record) {
    && b.tenant == a.tenant && b.startedAt == a.startedAt && b.rows.Keys == a.rows.Keys
    && b.exec.status == a.exec.status && b.exec.trail == a.exec.trail && b.exec.failedStep == a.exec.failedStep
  }

  /** The one step has run, its output is merged into the named context, and nothing else changes. */
  ghost predicate IsWorked(a: Db, b: Db, id: Id, step: Id, contextOf: Id, result: WorkResult)
    requires id in a && step in a[id].rows && contextOf in a
  {
    && b.Keys == a.Keys
    && (forall k :: k in a ==> SameOutline(a[k], b[k]))
    && (forall k, n :: k in a && n in a[k].rows && (k != id || n != step) ==> b[k].rows[n] == a[k].rows[n])
    && RowIsWorked(a[id].rows[step], b[id].rows[step], result)
    && (forall k :: k in a && k != contextOf ==> b[k].exec.context == a[k].exec.context)
    && if result.Executed? && result.outcome.Success? then
         Merged(a[contextOf].exec.context, b[contextOf].exec.context, step, result.outcome.output)
       else b[contextOf].exec.context == a[contextOf].exec.context
  }

  ghost predicate Merged(a: Context, b: Context, step: Id, output: Output) {
    && b.trigger == a.trigger && b.depth == a.depth && b.tenant == a.tenant
    && b.steps.Keys == a.steps.Keys + {step} && b.steps[step] == output
    && forall n :: n in a.steps && n != step ==> b.steps[n] == a.steps[n]
  }

  lemma CancelEffect(db: Db, id: Id, tenant: Id)
    ensures var d := Apply(db, Cancel(id, tenant));
      if id in db && db[id].tenant == tenant && db[id].exec.status in {ExecPending, ExecRunning} then
        && d.Keys == db.Keys && (forall k :: k in db && k != id ==> d[k] == db[k])
        && IsCancelled(db[id], d[id])
      else d == db
  {
  }

  lemma SweepEffect(db: Db, now: int)
    ensures var d := Apply(db, Sweep(now));
      && d.Keys == db.Keys
      && (forall id :: id in db ==> if IsOverdue(db[id], now) then IsSwept(db[id], d[id]) else d[id] == db[id])
    ensures forall r: Record :: IsStale(r, now) <==> IsOverdue(r, now)
  {
  }

  lemma WorkedRowEffect(row: StepRow, result: WorkResult)
    ensures RowIsWorked(row, WorkedRow(row, result), result)
  {
    var done := WorkedRow(row, result);
    assert done.trail == row.trail + [Running] + [done.status] == row.trail + [Running, done.status];
  }

  lemma WithRowEffect(db: Db, id: Id, step: Id, row: StepRow)
    requires id in db && step in db[id].rows
    ensures var d := WithRow(db, id, step, row);
      && d.Keys == db.Keys && (forall k :: k in db ==> SameOutline(db[k], d[k]) && d[k].exec == db[k].exec)
      && (forall k, n :: k in db && n in db[k].rows && (k != id || n != step) ==> d[k].rows[n] == db[k].rows[n])
      && d[id].rows[step] == row
  {
  }

  lemma WithStepOutputEffect(db: Db, id: Id, step: Id, output: Output)
    requires id in db
    ensures var d := WithStepOutput(db, id, step, output);
      && d.Keys == db.Keys && (forall k :: k in db ==> SameOutline(db[k], d[k]) && d[k].rows == db[k].rows)
      && (forall k :: k in db && k != id ==> d[k].exec == db[k].exec)
      && Merged(db[id].exec.context, d[id].exec.context, step, output)
  {
  }

  lemma OutlineStays(a: Db, b: Db, c: Db)
    requires a.Keys == b.Keys == c.Keys
    requires forall k :: k in a ==> SameOutline(a[k], b[k])
    requires forall k :: k in b ==> SameOutline(b[k], c[k])
    ensures forall k :: k in a ==> SameOutline(a[k], c[k])
  {
    forall k | k in a ensures SameOutline(a[k], c[k]) {
      assert SameOutline(a[k], b[k]) && SameOutline(b[k], c[k]);
    }
  }

  lemma WorkEffect(db: Db, id: Id, step: Id, contextOf: Id, result: WorkResult)
    ensures var d := Apply(db, Work(id, step, contextOf, result));
      if id in db && step in db[id].rows && contextOf in db && db[id].rows[step].status == Queued then
        IsWorked(db, d, id, step, contextOf, result)
      else d == db
  {
    hide RowIsWorked, WorkedRow, WithRow, WithStepOutput, Merged, SameOutline;
    if Workable(db, id, step, contextOf) {
      var row := WorkedRow(db[id].rows[step], result);
      var after := WithRow(db, id, step, row);
      WorkedRowEffect(db[id].rows[step], result);
      WithRowEffect(db, id, step, row);
      RowsNamed(db, after);
      if result.Executed? && result.outcome.Success? {
        WithStepOutputEffect(after, contextOf, step, result.outcome.output);
        OutlineStays(db, after, WithStepOutput(after, contextOf, step, result.outcome.output));
      }
    }
  }

  lemma RowsNamed(a: Db, b: Db)
    requires a.Keys == b.Keys && forall k :: k in a ==> SameOutline(a[k], b[k])
    ensures forall k :: k in a ==> b[k].rows.Keys == a[k].rows.Keys
  {
  }

  // ---- The three writers as they run ----

  class Store {
    var db: Db

    constructor ()
      ensures db == map[]
    {
      db := map[];
    }

    /** Cancels a pending or running execution and skips its unfinished steps one by one. */
    method CancelExecution(id: Id, tenant: Id) returns (r: Result<(), Fault>)
      modifies this
      ensures db == Apply(old(db), Cancel(id, tenant))
      ensures r.Ok? <==> Visible(old(db), id, tenant) && !ExecTerminal(old(db)[id].exec.status)
      ensures r.Err? ==> r.error == if Visible(old(db), id, tenant) then InvalidTransition else NotFound
      ensures id !in old(db) || old(db)[id].tenant != tenant ==> r == Err(NotFound) && db == old(db)
      ensures id in old(db) && old(db)[id].tenant == tenant ==>
        if old(db)[id].exec.status in {ExecPending, ExecRunning} then
          && r.Ok? && db.Keys == old(db).Keys && (forall k :: k in db && k != id ==> db[k] == old(db)[k])
          && IsCancelled(old(db)[id], db[id])
        else r == Err(InvalidTransition) && db == old(db)
    {
      CancelEffect(db, id, tenant);
      if id !in db || db[id].tenant != tenant {
        return Err(NotFound);
      }
      var e := db[id].exec;
      if !ExecAllowed(e.status, ExecCancelled) {
        return Err(InvalidTransition);
      }
      var rows := db[id].rows;
      var todo := rows.Keys;
      while todo != {}
        invariant todo <= rows.Keys == old(db)[id].rows.Keys
        invariant forall n :: n in rows ==> rows[n] == if n in todo then old(db)[id].rows[n] else CancelRecord(old(db)[id]).rows[n]
        decreases todo
      {
        var n :| n in todo;
        if Active(rows[n].status) {
          rows := rows[n := Move(rows[n], Skipped)];
        }
        todo := todo - {n};
      }
      db := db[id := Record(db[id].tenant, db[id].startedAt, e.(status := ExecCancelled, trail := e.trail + [ExecCancelled]), rows)];
      assert rows == CancelRecord(old(db)[id]).rows;
      return Ok(());
    }

    /** Two bulk updates: the stale executions, then their unfinished steps. */
    method CleanupStaleExecutions(now: int) returns (cleaned: nat)
      modifies this
      ensures db == Apply(old(db), Sweep(now))
      ensures cleaned == |set id | id in old(db) && IsOverdue(old(db)[id], now)|
      ensures db.Keys == old(db).Keys
      ensures forall id :: id in db ==>
        if IsOverdue(old(db)[id], now) then IsSwept(old(db)[id], db[id]) else db[id] == old(db)[id]
    {
      SweepEffect(db, now);
      var cutoff := now - STALE_THRESHOLD;
      var ids := set id | id in db && db[id].exec.status.ExecRunning? && db[id].startedAt.Some? && db[id].startedAt.value < cutoff;
      assert ids == set id | id in db && IsStale(db[id], now);
      assert ids == set id | id in db && IsOverdue(db[id], now);
      cleaned := |ids|;
      if cleaned == 0 {
        forall id | id in db ensures !IsStale(db[id], now) {
          assert id !in ids;
        }
        return;
      }
      db := map id | id in db ::
        if id in ids then db[id].(exec := db[id].exec.(status := ExecFailed, trail := db[id].exec.trail + [ExecFailed]))
        else db[id];
      db := map id | id in db ::
        if id in ids then db[id].(rows := map n | n in db[id].rows ::
          if Active(db[id].rows[n].status) then Move(db[id].rows[n], Failed).(error := Some(Stale)) else db[id].rows[n])
        else db[id];
    }

    /** The worker's task: running, then completed with its output merged, or failed with one more attempt. */
    method ExecuteStep(id: Id, step: Id, contextOf: Id, result: WorkResult) returns (r: Result<Output, Fault>)
      modifies this
      ensures db == Apply(old(db), Work(id, step, contextOf, result))
      ensures r.Ok? <==> Workable(old(db), id, step, contextOf) && result.Executed? && result.outcome.Success?
      ensures r.Ok? ==> r.value == result.outcome.output
      ensures id !in old(db) || step !in old(db)[id].rows || contextOf !in old(db) ==> r == Err(NotFound) && db == old(db)
      ensures id in old(db) && step in old(db)[id].rows && contextOf in old(db) ==>
        if old(db)[id].rows[step].status == Queued then IsWorked(old(db), db, id, step, contextOf, result)
        else r == Err(InvalidTransition) && db == old(db)
    {
      WorkEffect(db, id, step, contextOf, result);
      if id !in db || step !in db[id].rows || contextOf !in db {
        return Err(NotFound);
      }
      var row := db[id].rows[step];
      if !StepAllowed(row.status, Running) {
        return Err(InvalidTransition);
      }
      var started := Move(row, Running);
      match result {
        case Unsupported =>
          db := WithRow(db, id, step, Move(started, Failed).(error := Some(External(0))));
          return Err(External(0));
        case Executed(Success(output)) =>
          db := WithRow(db, id, step, Move(started, Completed).(output := Some(output)));
          db := WithStepOutput(db, contextOf, step, output);
          return Ok(output);
        case Executed(Failure(fault)) =>
          var attempt := (if row.attempt == 0 then 1 else row.attempt) + 1;
          db := WithRow(db, id, step, Move(started, Failed).(error := Some(fault), attempt := attempt));
          return Err(fault);
      }
    }
  }
}
