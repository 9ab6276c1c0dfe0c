/**
 Whole histories of the store, told by the fields of its records: which tenant's requests reach a record, and
 what the status of an execution says about its past.
 */
module StoreLaws {
  import opened Common
  import opened Status
  import opened Engine
  import opened RunProperties
  import opened RunTheorems
  import opened RunLaws
  import opened Lifecycle

  lemma AfterNext(actions: seq<Action>, i: nat)
    requires i < |actions|
    ensures After(actions[..i + 1]) == Apply(After(actions[..i]), actions[i])
  {
    assert actions[..i + 1][..i] == actions[..i];
  }

  /** In every history, a cancellation leaves every record of another tenant as it was. */
  lemma CancelStaysInTenant(actions: seq<Action>, i: nat, id: Id)
    requires i < |actions| && actions[i].Cancel? && id in After(actions[..i])
    requires After(actions[..i])[id].tenant != actions[i].tenant
    ensures id in After(actions[..i + 1]) && After(actions[..i + 1])[id] == After(actions[..i])[id]
  {
    AfterNext(actions, i);
    CancelEffect(After(actions[..i]), actions[i].id, actions[i].tenant);
  }

  // ---- The moments that decide the status of an execution ----

  /** The record enters the store. */
  ghost predicate ArrivesAt(actions: seq<Action>, k: nat, id: Id) {
    && k < |actions| && (actions[k].Run? || actions[k].AbortedRun?) && actions[k].id == id
    && id !in After(actions[..k])
  }

  /** The tenant of a pending or running execution cancels it. */
  ghost predicate CancelledAt(actions: seq<Action>, k: nat, id: Id) {
    && k < |actions| && actions[k].Cancel? && actions[k].id == id && id in After(actions[..k])
    && After(actions[..k])[id].tenant == actions[k].tenant
    && After(actions[..k])[id].exec.status in {ExecPending, ExecRunning}
  }

  /** A sweep finds the execution running for more than an hour. */
  ghost predicate SweptAt(actions: seq<Action>, k: nat, id: Id) {
    && k < |actions| && actions[k].Sweep? && id in After(actions[..k])
    && IsOverdue(After(actions[..k])[id], actions[k].now)
  }

  ghost predicate Cancelled(actions: seq<Action>, id: Id) {
    exists k: nat :: CancelledAt(actions, k, id)
  }

  ghost predicate Swept(actions: seq<Action>, id: Id) {
    exists k: nat :: SweptAt(actions, k, id)
  }

  /** One more action: a record that is there keeps its status, or is cancelled, or is swept. */
  lemma StatusStep(actions: seq<Action>, id: Id)
    requires actions != [] && id in After(actions[..|actions|-1])
    ensures var k: nat := |actions| - 1;
      var before := After(actions[..k]);
      && id in After(actions)
      && After(actions)[id].exec.status ==
           (if CancelledAt(actions, k, id) then ExecCancelled
            else if SweptAt(actions, k, id) then ExecFailed
            else before[id].exec.status)
  {
    hide Apply, IsCancelled, IsSwept, IsWorked;
    var k: nat := |actions| - 1;
    var db, a := After(actions[..k]), actions[k];
    match a {
      case Run(n, record) => InsertEffect(db, n, record);
      case AbortedRun(n, record) => InsertEffect(db, n, record);
      case Cancel(n, tenant) =>
        CancelEffect(db, n, tenant);
        CancelledStatus(db[id], Apply(db, a)[id]);
      case Sweep(now) =>
        SweepEffect(db, now);
        SweptStatus(db[id], Apply(db, a)[id]);
      case Work(n, step, contextOf, result) =>
        WorkEffect(db, n, step, contextOf, result);
        if n in db && step in db[n].rows && contextOf in db {
          WorkedStatus(db, Apply(db, a), n, step, contextOf, result);
        }
    }
  }

  lemma InsertEffect(db: Db, id: Id, record: Record)
    ensures Apply(db, Run(id, record)) == Apply(db, AbortedRun(id, record))
    ensures Apply(db, Run(id, record)) == if id in db then db else db[id := record]
  {
  }

  lemma CancelledStatus(a: Record, b: Record)
    ensures IsCancelled(a, b) ==> b.exec.status == ExecCancelled
  {
  }

  lemma SweptStatus(a: Record, b: Record)
    ensures IsSwept(a, b) ==> b.exec.status == ExecFailed
  {
  }

  lemma WorkedStatus(a: Db, b: Db, id: Id, step: Id, contextOf: Id, result: WorkResult)
    requires id in a && step in a[id].rows && contextOf in a
    ensures IsWorked(a, b, id, step, contextOf, result) ==>
      b.Keys == a.Keys && forall k :: k in a ==> b[k].exec.status == a[k].exec.status
  {
  }

  /** Runs arrive completed or failed, aborted runs pending or running. */
  lemma ArrivesUncancelled(a: Action, db: Db)
    requires Possible(db, a) && (a.Run? || a.AbortedRun?)
    ensures a.record.exec.status != ExecCancelled
  {
    if a.Run? {
      var oracle, plan, trigger, tenant, depth :| RecordOfRun(a.record, oracle, plan, trigger, tenant, depth);
      var done := RunOutcome(oracle, plan, trigger, tenant, depth);
    }
  }

  lemma EarlierMoments(actions: seq<Action>, k: nat, id: Id)
    requires actions != [] && k < |actions| - 1
    ensures var init := actions[..|actions|-1];
      && (CancelledAt(init, k, id) <==> CancelledAt(actions, k, id))
      && (SweptAt(init, k, id) <==> SweptAt(actions, k, id))
      && (ArrivesAt(init, k, id) <==> ArrivesAt(actions, k, id))
  {
    assert actions[..|actions|-1][..k] == actions[..k];
  }

  /** With one more action, the decisive moments are the earlier ones and perhaps the last. */
  lemma OneMoreMoment(actions: seq<Action>, id: Id)
    requires actions != []
    ensures var init, k: nat := actions[..|actions|-1], |actions| - 1;
      && (Cancelled(actions, id) <==> Cancelled(init, id) || CancelledAt(actions, k, id))
      && (Swept(actions, id) <==> Swept(init, id) || SweptAt(actions, k, id))
  {
    hide CancelledAt, SweptAt;
    var init := actions[..|actions|-1];
    forall k: nat | k < |actions| - 1
      ensures CancelledAt(init, k, id) <==> CancelledAt(actions, k, id)
      ensures SweptAt(init, k, id) <==> SweptAt(actions, k, id)
    {
      EarlierMoments(actions, k, id);
    }
    forall k: nat | k >= |init| ensures !CancelledAt(init, k, id) && !SweptAt(init, k, id) {
      NoMomentBeyond(init, k, id);
    }
    forall k: nat | k >= |actions| ensures !CancelledAt(actions, k, id) && !SweptAt(actions, k, id) {
      NoMomentBeyond(actions, k, id);
    }
  }

  lemma NoMomentBeyond(actions: seq<Action>, k: nat, id: Id)
    requires k >= |actions|
    ensures !CancelledAt(actions, k, id) && !SweptAt(actions, k, id)
  {
  }

  /** Nothing happens to a record before it is there. */
  lemma NothingBefore(actions: seq<Action>, id: Id)
    requires PossibleHistory(actions) && id !in After(actions)
    ensures !Cancelled(actions, id) && !Swept(actions, id)
  {
    forall k: nat | k < |actions| ensures id !in After(actions[..k]) {
      FinalStatesStay(actions, k);
    }
  }

  lemma OnlyRunsAdd(db: Db, a: Action)
    requires !a.Run? && !a.AbortedRun?
    ensures Apply(db, a).Keys == db.Keys
  {
    hide IsCancelled, IsSwept, IsWorked, Apply;
    match a {
      case Cancel(n, tenant) => CancelEffect(db, n, tenant);
      case Sweep(now) => SweepEffect(db, now);
      case Work(n, step, contextOf, result) =>
        WorkEffect(db, n, step, contextOf, result);
        if n in db && step in db[n].rows && contextOf in db {
          WorkedStatus(db, Apply(db, a), n, step, contextOf, result);
        }
      case _ =>
    }
  }

  lemma Arrival(actions: seq<Action>, id: Id)
    requires PossibleHistory(actions) && actions != [] && id !in After(actions[..|actions|-1]) && id in After(actions)
    ensures ArrivesAt(actions, |actions| - 1, id)
    ensures After(actions)[id] == actions[|actions|-1].record && After(actions)[id].exec.status != ExecCancelled
  {
    hide Possible, Apply;
    var db, a := After(actions[..|actions|-1]), actions[|actions|-1];
    assert Possible(db, a);
    if a.Run? || a.AbortedRun? {
      InsertEffect(db, a.id, a.record);
      ArrivesUncancelled(a, db);
    } else {
      OnlyRunsAdd(db, a);
    }
  }

  lemma NothingYet()
    ensures After([]) == map[]
  {
  }

  /**
   Main theorem. In every history, an execution is cancelled if and only if its own tenant cancelled it while
   it was pending or running; it has failed if and only if its run failed or a sweep found it running for
   more than an hour; otherwise its status is the one it arrived with. No other action changes a status.
   */
  lemma {:induction false} StatusIsExplained(actions: seq<Action>, id: Id) returns (a: nat)
    requires PossibleHistory(actions) && id in After(actions)
    ensures ArrivesAt(actions, a, id)
    ensures var status, first := After(actions)[id].exec.status, actions[a].record.exec.status;
      && (status == ExecCancelled <==> Cancelled(actions, id))
      && (status == ExecFailed <==> first == ExecFailed || Swept(actions, id))
      && (!Cancelled(actions, id) && !Swept(actions, id) ==> status == first)
  {
    hide After, Cancelled, Swept, PossibleHistory;
    NothingYet();
    var init := actions[..|actions|-1];
    PossiblePrefix(actions, |actions| - 1);
    OneMoreMoment(actions, id);
    if id in After(init) {
      a := StatusIsExplained(init, id);
      EarlierMoments(actions, a, id);
      StatusStep(actions, id);
    } else {
      Arrival(actions, id);
      NothingBefore(init, id);
      a := |actions| - 1;
      assert actions[..a] == init;
    }
  }
}
