/**
 The cache beside the database it stands in for: webhook requests look a path up in the cache first
 and fill it from the database; updates and deletions commit and then invalidate.
 */
module WebhookLookup {
  import opened Common
  import opened WorkflowCache
  import opened CacheLaws

  type Db = map<Id, Workflow>

  /** Rows are stored under their id, and the path column is unique. */
  ghost predicate DbOk(db: Db) {
    && (forall id :: id in db ==> db[id].id == id)
    && (forall a, b :: a in db && b in db && db[a].path.Some? && db[a].path == db[b].path ==> a == b)
  }

  ghost predicate Holds(db: Db, path: Id, id: Id) {
    id in db && db[id].path == Some(path)
  }

  /** The row that the database holds for a path. */
  ghost function LookupDb(db: Db, path: Id): Option<Workflow> {
    if exists id :: Holds(db, path, id) then
      var id :| Holds(db, path, id);
      Some(db[id])
    else None
  }

  lemma LookupFinds(db: Db, path: Id, id: Id)
    requires DbOk(db) && Holds(db, path, id)
    ensures LookupDb(db, path) == Some(db[id])
  {
  }

  datatype Instant = Instant(time: int, db: Db)

  /** `past` lists what the database held after each event, and when. */
  datatype System = System(db: Db, cache: Cache, now: int, past: seq<Instant>)

  /**
   What an update asks for: `webhook` is the new trigger type, if one is given, and `stepsOk` says whether
   the parser accepts the new steps, if any are given.
   */
  datatype Edit = Edit(webhook: Option<bool>, generated: Id, body: nat, stepsOk: bool)

  /** Becoming a webhook workflow generates a path unless there is one; ceasing to be one clears it. */
  function NewPath(path: Option<Id>, edit: Edit): Option<Id> {
    match edit.webhook
    case None => path
    case Some(isWebhook) => if !isWebhook then None else if path.Some? then path else Some(edit.generated)
  }

  function Edited(w: Workflow, edit: Edit): Workflow {
    Workflow(w.id, w.tenant, NewPath(w.path, edit), edit.body)
  }

  /** Commit and CommitDelete only write; Update and Delete also drop the cached copy in the same step. */
  datatype Act =
    | Tick(seconds: nat)
    | Create(w: Workflow)
    | Commit(id: Id, tenant: Id, edit: Edit)
    | CommitDelete(id: Id, tenant: Id)
    | Invalidate(id: Id)
    | Update(id: Id, tenant: Id, edit: Edit)
    | Delete(id: Id, tenant: Id)
    | Receive(path: Id)

  /** Another row has the path of w. */
  predicate Taken(db: Db, w: Workflow) {
    w.path.Some? && exists id :: id in db && id != w.id && db[id].path == w.path
  }

  function Inserted(db: Db, w: Workflow): Db {
    if w.id in db || Taken(db, w) then db else db[w.id := w]
  }

  /** A row of another tenant is not found. */
  predicate Visible(db: Db, id: Id, tenant: Id) {
    id in db && db[id].tenant == tenant
  }

  /** An id that is not found, steps that are not accepted and a taken path make the update fail. */
  predicate Writes(db: Db, id: Id, tenant: Id, edit: Edit) {
    Visible(db, id, tenant) && edit.stepsOk && !Taken(db, Edited(db[id], edit))
  }

  function Written(db: Db, id: Id, tenant: Id, edit: Edit): Db {
    if Writes(db, id, tenant, edit) then db[id := Edited(db[id], edit)] else db
  }

  function Deleted(db: Db, id: Id, tenant: Id): Db {
    if Visible(db, id, tenant) then db - {id} else db
  }

  /** A hit answers from the cache; a miss reads the database and fills the cache. */
  ghost function ReceiveCache(s: System, path: Id, ttl: int, maxSize: nat): Cache
    requires maxSize >= 1
  {
    var (looked, found) := GetByPath(s.cache, path, s.now);
    if found.Some? || LookupDb(s.db, path).None? then looked
    else Set(looked, LookupDb(s.db, path).value, s.now, ttl, maxSize)
  }

  ghost function NewDb(s: System, a: Act): Db
    requires DbOk(s.db)
  {
    match a
    case Create(w) => Inserted(s.db, w)
    case Commit(id, tenant, edit) => Written(s.db, id, tenant, edit)
    case Update(id, tenant, edit) => Written(s.db, id, tenant, edit)
    case CommitDelete(id, tenant) => Deleted(s.db, id, tenant)
    case Delete(id, tenant) => Deleted(s.db, id, tenant)
    case _ => s.db
  }

  ghost function NewCache(s: System, a: Act, ttl: int, maxSize: nat): Cache
    requires maxSize >= 1 && DbOk(s.db)
  {
    match a
    case Invalidate(id) => Remove(s.cache, id)
    case Update(id, tenant, edit) => if Writes(s.db, id, tenant, edit) then Remove(s.cache, id) else s.cache
    case Delete(id, tenant) => if Visible(s.db, id, tenant) then Remove(s.cache, id) else s.cache
    case Receive(path) => ReceiveCache(s, path, ttl, maxSize)
    case _ => s.cache
  }

  ghost function Step(s: System, a: Act, ttl: int, maxSize: nat): (t: System)
    requires maxSize >= 1 && DbOk(s.db)
    ensures DbOk(t.db)
  {
    var now := if a.Tick? then s.now + a.seconds else s.now;
    var db := NewDb(s, a);
    System(db, NewCache(s, a, ttl, maxSize), now, s.past + [Instant(now, db)])
  }

  const START := System(map[], EMPTY, 0, [Instant(0, map[])])

  ghost function After(acts: seq<Act>, ttl: int, maxSize: nat): (s: System)
    requires maxSize >= 1
    ensures DbOk(s.db)
  {
    if acts == [] then START else Step(After(acts[..|acts|-1], ttl, maxSize), acts[|acts|-1], ttl, maxSize)
  }

  /** The answer that a webhook request for the path gets. */
  ghost function Hit(s: System, path: Id): Option<Workflow> {
    GetByPath(s.cache, path, s.now).1
  }

  ghost function Answer(s: System, path: Id): Option<Workflow> {
    if Hit(s, path).Some? then Hit(s, path) else LookupDb(s.db, path)
  }

  // ---- Every entry was a database row when it was filled ----

  ghost predicate WasRow(past: seq<Instant>, k: nat, e: Entry, ttl: int) {
    && k < |past| && past[k].time == e.expiresAt - ttl
    && e.workflow.id in past[k].db && past[k].db[e.workflow.id] == e.workflow
  }

  ghost predicate WasFilled(past: seq<Instant>, e: Entry, ttl: int) {
    exists k: nat :: WasRow(past, k, e, ttl)
  }

  ghost predicate Recorded(s: System, ttl: int, maxSize: nat) {
    && WellKept(s.cache.entries, maxSize)
    && DbOk(s.db)
    && (forall k :: 0 <= k < |s.past| ==> DbOk(s.past[k].db) && s.past[k].time <= s.now)
    && s.past != [] && s.past[|s.past|-1] == Instant(s.now, s.db)
    && (forall e :: e in s.cache.entries ==> WasFilled(s.past, e, ttl))
  }

  lemma PastGrows(past: seq<Instant>, next: Instant, e: Entry, ttl: int)
    requires WasFilled(past, e, ttl)
    ensures WasFilled(past + [next], e, ttl)
  {
    var k: nat :| WasRow(past, k, e, ttl);
    assert WasRow(past + [next], k, e, ttl);
  }

  lemma LookedUpEntries(c: Cache, path: Id, now: int, maxSize: nat)
    requires WellKept(c.entries, maxSize)
    ensures var (looked, found) := GetByPath(c, path, now);
      && WellKept(looked.entries, maxSize)
      && (forall e :: e in looked.entries ==> e in c.entries)
      && (found.Some? ==> exists e :: e in c.entries && e.workflow == found.value && now < e.expiresAt)
  {
    if path in c.index {
      var id := c.index[path];
      GetKeepsCapacity(c, id, now, maxSize);
      WithoutMembers(c.entries, id);
      FindMember(c.entries, id);
    }
  }

  /** Filling from the database records the row it was filled from. */
  lemma FillIsRecorded(s: System, path: Id, ttl: int, maxSize: nat, e: Entry)
    requires maxSize >= 1 && Recorded(s, ttl, maxSize)
    requires e in ReceiveCache(s, path, ttl, maxSize).entries
    ensures WasFilled(s.past, e, ttl)
  {
    var (looked, found) := GetByPath(s.cache, path, s.now);
    LookedUpEntries(s.cache, path, s.now, maxSize);
    if found.None? && LookupDb(s.db, path).Some? {
      var row := LookupDb(s.db, path).value;
      var kept := Without(looked.entries, row.id);
      WithoutMembers(looked.entries, row.id);
      EvictKeeps(kept, maxSize);
      if e == Entry(row, s.now + ttl) {
        assert WasRow(s.past, |s.past| - 1, e, ttl);
      } else {
        assert e in Evict(kept, maxSize);
      }
    }
  }

  lemma ReceiveKeepsCapacity(s: System, path: Id, ttl: int, maxSize: nat)
    requires maxSize >= 1 && WellKept(s.cache.entries, maxSize)
    ensures WellKept(ReceiveCache(s, path, ttl, maxSize).entries, maxSize)
  {
    var (looked, found) := GetByPath(s.cache, path, s.now);
    LookedUpEntries(s.cache, path, s.now, maxSize);
    if found.None? && LookupDb(s.db, path).Some? {
      SetKeepsCapacity(looked, LookupDb(s.db, path).value, s.now, ttl, maxSize);
    }
  }

  lemma NewEntriesRecorded(s: System, a: Act, ttl: int, maxSize: nat)
    requires maxSize >= 1 && Recorded(s, ttl, maxSize)
    ensures WellKept(NewCache(s, a, ttl, maxSize).entries, maxSize)
    ensures forall e :: e in NewCache(s, a, ttl, maxSize).entries ==> WasFilled(s.past, e, ttl)
  {
    match a {
      case Invalidate(id) => WithoutMembers(s.cache.entries, id);
      case Update(id, _, _) => WithoutMembers(s.cache.entries, id);
      case Delete(id, _) => WithoutMembers(s.cache.entries, id);
      case Receive(path) =>
        ReceiveKeepsCapacity(s, path, ttl, maxSize);
        forall e | e in ReceiveCache(s, path, ttl, maxSize).entries ensures WasFilled(s.past, e, ttl) {
          FillIsRecorded(s, path, ttl, maxSize, e);
        }
      case _ =>
    }
  }

  lemma StepKeepsRecorded(s: System, a: Act, ttl: int, maxSize: nat)
    requires maxSize >= 1 && Recorded(s, ttl, maxSize)
    ensures Recorded(Step(s, a, ttl, maxSize), ttl, maxSize)
  {
    var t := Step(s, a, ttl, maxSize);
    NewEntriesRecorded(s, a, ttl, maxSize);
    forall e | e in t.cache.entries ensures WasFilled(t.past, e, ttl) {
      PastGrows(s.past, Instant(t.now, t.db), e, ttl);
    }
  }

  lemma {:induction false} StaysRecorded(acts: seq<Act>, ttl: int, maxSize: nat)
    requires maxSize >= 1
    ensures Recorded(After(acts, ttl, maxSize), ttl, maxSize)
  {
    if acts != [] {
      var init := acts[..|acts|-1];
      StaysRecorded(init, ttl, maxSize);
      StepKeepsRecorded(After(init, ttl, maxSize), acts[|acts|-1], ttl, maxSize);
    }
  }

  // ---- The index stays exact while no fill leaves a key behind ----

  /** Receiving a request for the path fills the cache without leaving an index key behind. */
  ghost predicate FillsCleanly(s: System, path: Id, maxSize: nat) {
    var (looked, found) := GetByPath(s.cache, path, s.now);
    found.None? && LookupDb(s.db, path).Some? ==> !LeavesKey(looked, LookupDb(s.db, path).value, maxSize)
  }

  ghost predicate CleanTrace(acts: seq<Act>, ttl: int, maxSize: nat)
    requires maxSize >= 1
  {
    forall i :: 0 <= i < |acts| && acts[i].Receive? ==> FillsCleanly(After(acts[..i], ttl, maxSize), acts[i].path, maxSize)
  }

  // ---- Traces without evictions are clean ----

  function CreatedIds(acts: seq<Act>): set<Id> {
    if acts == [] then {}
    else CreatedIds(acts[..|acts|-1]) + if acts[|acts|-1].Create? then {acts[|acts|-1].w.id} else {}
  }

  ghost predicate Known(s: System, ids: set<Id>) {
    s.db.Keys <= ids && forall e :: e in s.cache.entries ==> e.workflow.id in ids
  }

  lemma ReceiveKeepsKnown(s: System, path: Id, ttl: int, maxSize: nat, ids: set<Id>)
    requires maxSize >= 1 && Recorded(s, ttl, maxSize) && Known(s, ids)
    ensures forall e :: e in ReceiveCache(s, path, ttl, maxSize).entries ==> e.workflow.id in ids
  {
    var (looked, found) := GetByPath(s.cache, path, s.now);
    LookedUpEntries(s.cache, path, s.now, maxSize);
    if found.None? && LookupDb(s.db, path).Some? {
      var row := LookupDb(s.db, path).value;
      WithoutMembers(looked.entries, row.id);
      EvictKeeps(Without(looked.entries, row.id), maxSize);
    }
  }

  lemma {:induction false} OnlyCreated(acts: seq<Act>, ttl: int, maxSize: nat)
    requires maxSize >= 1
    ensures Known(After(acts, ttl, maxSize), CreatedIds(acts))
  {
    if acts != [] {
      var init, last := acts[..|acts|-1], acts[|acts|-1];
      var s := After(init, ttl, maxSize);
      OnlyCreated(init, ttl, maxSize);
      StaysRecorded(init, ttl, maxSize);
      if last.Receive? {
        ReceiveKeepsKnown(s, last.path, ttl, maxSize, CreatedIds(init));
      }
      match last {
        case Invalidate(id) => WithoutMembers(s.cache.entries, id);
        case Update(id, _, _) => WithoutMembers(s.cache.entries, id);
        case Delete(id, _) => WithoutMembers(s.cache.entries, id);
        case _ =>
      }
    }
  }

  lemma {:induction false} FewEntries(es: seq<Entry>, ids: set<Id>)
    requires DistinctKeys(es) && forall e :: e in es ==> e.workflow.id in ids
    ensures |es| <= |ids|
  {
    if es != [] {
      var rest := es[1..];
      assert forall k :: 0 <= k < |rest| ==> rest[k] == es[k + 1];
      FewEntries(rest, ids - {es[0].workflow.id});
    }
  }

  lemma NoRoomNeeded(s: System, path: Id, ttl: int, maxSize: nat, ids: set<Id>)
    requires maxSize >= 1 && Recorded(s, ttl, maxSize) && Known(s, ids) && |ids| <= maxSize
    ensures FillsCleanly(s, path, maxSize)
  {
    var (looked, found) := GetByPath(s.cache, path, s.now);
    LookedUpEntries(s.cache, path, s.now, maxSize);
    if found.None? && LookupDb(s.db, path).Some? {
      var row := LookupDb(s.db, path).value;
      WithoutMembers(looked.entries, row.id);
      assert row.id in ids;
      FewEntries(Without(looked.entries, row.id), ids - {row.id});
    }
  }

  lemma {:induction false} CreatedIdsGrow(acts: seq<Act>, k: nat)
    requires k <= |acts|
    ensures CreatedIds(acts[..k]) <= CreatedIds(acts)
  {
    if k < |acts| {
      CreatedIdsGrow(acts[..|acts|-1], k);
      assert acts[..|acts|-1][..k] == acts[..k];
    } else {
      assert acts[..k] == acts;
    }
  }

  /** While no more workflows have been created than the cache can hold, no fill evicts anything. */
  lemma FewWorkflowsAreClean(acts: seq<Act>, ttl: int, maxSize: nat)
    requires maxSize >= 1 && |CreatedIds(acts)| <= maxSize
    ensures CleanTrace(acts, ttl, maxSize)
  {
    forall i | 0 <= i < |acts| && acts[i].Receive? ensures FillsCleanly(After(acts[..i], ttl, maxSize), acts[i].path, maxSize) {
      OnlyCreated(acts[..i], ttl, maxSize);
      StaysRecorded(acts[..i], ttl, maxSize);
      CreatedIdsGrow(acts, i);
      NoRoomNeeded(After(acts[..i], ttl, maxSize), acts[i].path, ttl, maxSize, CreatedIds(acts));
    }
  }

  lemma CleanPrefix(acts: seq<Act>, k: nat, ttl: int, maxSize: nat)
    requires maxSize >= 1 && CleanTrace(acts, ttl, maxSize) && k <= |acts|
    ensures CleanTrace(acts[..k], ttl, maxSize)
  {
    forall i | 0 <= i < k && acts[..k][i].Receive?
      ensures FillsCleanly(After(acts[..k][..i], ttl, maxSize), acts[..k][i].path, maxSize)
    {
      assert acts[..k][..i] == acts[..i];
    }
  }

  lemma LookupKeepsSound(c: Cache, path: Id, now: int)
    requires DistinctKeys(c.entries) && IndexSound(c)
    ensures IndexSound(GetByPath(c, path, now).0)
  {
    if path in c.index {
      GetKeepsSound(c, c.index[path], now);
    }
  }

  lemma StepKeepsSound(s: System, a: Act, ttl: int, maxSize: nat)
    requires maxSize >= 1 && DbOk(s.db) && WellKept(s.cache.entries, maxSize) && IndexSound(s.cache)
    requires a.Receive? ==> FillsCleanly(s, a.path, maxSize)
    ensures IndexSound(NewCache(s, a, ttl, maxSize))
  {
    match a {
      case Invalidate(id) => RemoveKeepsSound(s.cache, id);
      case Update(id, _, _) => RemoveKeepsSound(s.cache, id);
      case Delete(id, _) => RemoveKeepsSound(s.cache, id);
      case Receive(path) =>
        var (looked, found) := GetByPath(s.cache, path, s.now);
        LookupKeepsSound(s.cache, path, s.now);
        LookedUpEntries(s.cache, path, s.now, maxSize);
        if found.None? && LookupDb(s.db, path).Some? {
          StoreKeepsIndexIff(looked, LookupDb(s.db, path).value, s.now, ttl, maxSize);
        }
      case _ =>
    }
  }

  lemma EmptyIsSound()
    ensures IndexSound(EMPTY)
  {
  }

  lemma {:induction false} CleanTraceIsSound(acts: seq<Act>, ttl: int, maxSize: nat)
    requires maxSize >= 1 && CleanTrace(acts, ttl, maxSize)
    ensures IndexSound(After(acts, ttl, maxSize).cache)
  {
    hide IndexSound, WellKept, FillsCleanly, NewCache, NewDb;
    if acts == [] {
      EmptyIsSound();
    } else {
      var init, last := acts[..|acts|-1], acts[|acts|-1];
      var s := After(init, ttl, maxSize);
      CleanPrefix(acts, |acts| - 1, ttl, maxSize);
      CleanTraceIsSound(init, ttl, maxSize);
      StaysRecorded(init, ttl, maxSize);
      assert last.Receive? ==> FillsCleanly(s, last.path, maxSize);
      StepKeepsSound(s, last, ttl, maxSize);
    }
  }

  /** A hit with the right path is a row that the database held for the path less than the time-to-live ago. */
  lemma TrueHitWasRow(s: System, ttl: int, maxSize: nat, path: Id) returns (k: nat)
    requires Recorded(s, ttl, maxSize) && Hit(s, path).Some? && Hit(s, path).value.path == Some(path)
    ensures k < |s.past| && s.now - ttl < s.past[k].time <= s.now && LookupDb(s.past[k].db, path) == Hit(s, path)
  {
    LookedUpEntries(s.cache, path, s.now, maxSize);
    var w := Hit(s, path).value;
    var e :| e in s.cache.entries && e.workflow == w && s.now < e.expiresAt;
    k :| WasRow(s.past, k, e, ttl);
    LookupFinds(s.past[k].db, path, w.id);
  }

  /**
   Main theorem, for any interleaving of commits, invalidations and requests in which no fill leaves an
   index key behind (in particular without evictions): a hit is the row that the database held for that
   path at some instant less than the time-to-live ago.
   */
  lemma HitWasCurrentRecently(acts: seq<Act>, ttl: int, maxSize: nat, path: Id) returns (k: nat)
    requires maxSize >= 1 && CleanTrace(acts, ttl, maxSize)
    requires Hit(After(acts, ttl, maxSize), path).Some?
    ensures var s := After(acts, ttl, maxSize);
      k < |s.past| && s.now - ttl < s.past[k].time <= s.now && LookupDb(s.past[k].db, path) == Hit(s, path)
  {
    var s := After(acts, ttl, maxSize);
    StaysRecorded(acts, ttl, maxSize);
    CleanTraceIsSound(acts, ttl, maxSize);
    ExactIndexAnswersTruly(s.cache, path, s.now);
    k := TrueHitWasRow(s, ttl, maxSize, path);
  }

  // ---- Commit and invalidate in one step ----

  predicate OneStepWrites(acts: seq<Act>) {
    forall i :: 0 <= i < |acts| ==> !acts[i].Commit? && !acts[i].CommitDelete?
  }

  /** Every entry is the current row. */
  ghost predicate Current(s: System) {
    forall e :: e in s.cache.entries ==> e.workflow.id in s.db && s.db[e.workflow.id] == e.workflow
  }

  lemma ReceiveKeepsCurrent(s: System, path: Id, ttl: int, maxSize: nat, e: Entry)
    requires maxSize >= 1 && Recorded(s, ttl, maxSize) && Current(s)
    requires e in ReceiveCache(s, path, ttl, maxSize).entries
    ensures e.workflow.id in s.db && s.db[e.workflow.id] == e.workflow
  {
    var (looked, found) := GetByPath(s.cache, path, s.now);
    LookedUpEntries(s.cache, path, s.now, maxSize);
    if found.None? && LookupDb(s.db, path).Some? {
      var row := LookupDb(s.db, path).value;
      var kept := Without(looked.entries, row.id);
      WithoutMembers(looked.entries, row.id);
      EvictKeeps(kept, maxSize);
      if e != Entry(row, s.now + ttl) {
        assert e in Evict(kept, maxSize);
      }
    }
  }

  lemma StepKeepsCurrent(s: System, a: Act, ttl: int, maxSize: nat)
    requires maxSize >= 1 && Recorded(s, ttl, maxSize) && Current(s) && !a.Commit? && !a.CommitDelete?
    ensures Current(Step(s, a, ttl, maxSize))
  {
    match a {
      case Invalidate(id) => WithoutMembers(s.cache.entries, id);
      case Update(id, _, _) => WithoutMembers(s.cache.entries, id);
      case Delete(id, _) => WithoutMembers(s.cache.entries, id);
      case Receive(path) =>
        forall e | e in ReceiveCache(s, path, ttl, maxSize).entries
          ensures e.workflow.id in s.db && s.db[e.workflow.id] == e.workflow
        {
          ReceiveKeepsCurrent(s, path, ttl, maxSize, e);
        }
      case _ =>
    }
  }

  lemma {:induction false} StaysCurrent(acts: seq<Act>, ttl: int, maxSize: nat)
    requires maxSize >= 1 && OneStepWrites(acts)
    ensures Current(After(acts, ttl, maxSize))
  {
    if acts != [] {
      var init := acts[..|acts|-1];
      StaysCurrent(init, ttl, maxSize);
      StaysRecorded(init, ttl, maxSize);
      StepKeepsCurrent(After(init, ttl, maxSize), acts[|acts|-1], ttl, maxSize);
    }
  }

  lemma TrueHitIsCurrent(s: System, path: Id, ttl: int, maxSize: nat)
    requires Recorded(s, ttl, maxSize) && Current(s)
    requires Hit(s, path).Some? ==> Hit(s, path).value.path == Some(path)
    ensures Answer(s, path) == LookupDb(s.db, path)
  {
    LookedUpEntries(s.cache, path, s.now, maxSize);
    if Hit(s, path).Some? {
      LookupFinds(s.db, path, Hit(s, path).value.id);
    }
  }

  /** The index leads the path to a cached, unexpired workflow whose row has another path. */
  ghost predicate Misled(s: System, path: Id, id: Id) {
    && HasKey(s.cache, path, id)
    && id in s.db && s.db[id].path != Some(path)
    && Find(s.cache.entries, id).Some? && s.now < Find(s.cache.entries, id).value.expiresAt
  }

  ghost predicate HasKey(c: Cache, path: Id, id: Id) {
    path in c.index && c.index[path] == id
  }

  /**
   The exact condition on the state before the request, for every trace with one-step writes, evictions
   and changes of path included.
   */
  lemma AnswerIsDatabaseIff(acts: seq<Act>, ttl: int, maxSize: nat, path: Id)
    requires maxSize >= 1 && OneStepWrites(acts)
    ensures var s := After(acts, ttl, maxSize);
      Answer(s, path) == LookupDb(s.db, path) <==> forall id :: !Misled(s, path, id)
  {
    var s := After(acts, ttl, maxSize);
    StaysRecorded(acts, ttl, maxSize);
    StaysCurrent(acts, ttl, maxSize);
    MisledIff(s, path, ttl, maxSize);
  }

  lemma MisledIff(s: System, path: Id, ttl: int, maxSize: nat)
    requires Recorded(s, ttl, maxSize) && Current(s)
    ensures Answer(s, path) == LookupDb(s.db, path) <==> forall id :: !Misled(s, path, id)
  {
    RowHasPath(s.db, path);
    if path in s.cache.index {
      FindMember(s.cache.entries, s.cache.index[path]);
    }
    if Hit(s, path).Some? {
      var id := s.cache.index[path];
      assert Hit(s, path).value == s.db[id];
      assert s.db[id].path != Some(path) ==> Misled(s, path, id);
    }
    if Hit(s, path).Some? ==> Hit(s, path).value.path == Some(path) {
      TrueHitIsCurrent(s, path, ttl, maxSize);
    }
  }

  lemma RowHasPath(db: Db, path: Id)
    ensures LookupDb(db, path).Some? ==> LookupDb(db, path).value.path == Some(path)
  {
  }

  /** Main theorem: with one-step writes, the cached lookup answers exactly what the database would. */
  lemma AnswerIsDatabase(acts: seq<Act>, ttl: int, maxSize: nat, path: Id)
    requires maxSize >= 1 && CleanTrace(acts, ttl, maxSize) && OneStepWrites(acts)
    ensures var s := After(acts, ttl, maxSize); Answer(s, path) == LookupDb(s.db, path)
  {
    var s := After(acts, ttl, maxSize);
    StaysRecorded(acts, ttl, maxSize);
    StaysCurrent(acts, ttl, maxSize);
    CleanTraceIsSound(acts, ttl, maxSize);
    ExactIndexAnswersTruly(s.cache, path, s.now);
    TrueHitIsCurrent(s, path, ttl, maxSize);
  }

  // ---- How a key comes to mislead ----

  /** The fill that a request makes pushes out the workflow id and leaves its key for the path behind. */
  ghost predicate Orphans(s: System, a: Act, maxSize: nat, path: Id, id: Id) {
    && a.Receive?
    && var (looked, found) := GetByPath(s.cache, a.path, s.now);
    && found.None? && LookupDb(s.db, a.path).Some?
    && var row := LookupDb(s.db, a.path).value;
    && OrphansKey(looked, row, maxSize, path) && Victim(looked, row, maxSize).value.workflow.id == id
  }

  ghost predicate OrphanedAt(acts: seq<Act>, i: nat, ttl: int, maxSize: nat, path: Id, id: Id)
    requires maxSize >= 1
  {
    i < |acts| && Orphans(After(acts[..i], ttl, maxSize), acts[i], maxSize, path, id)
  }

  /** Nothing that happened after the i-th event dropped or overwrote the key. */
  ghost predicate KeyKept(acts: seq<Act>, i: nat, ttl: int, maxSize: nat, path: Id, id: Id)
    requires maxSize >= 1
  {
    forall k :: i < k <= |acts| ==> HasKey(After(acts[..k], ttl, maxSize).cache, path, id)
  }

  ghost predicate Orphaned(acts: seq<Act>, ttl: int, maxSize: nat, path: Id, id: Id)
    requires maxSize >= 1
  {
    exists i: nat :: OrphanedAt(acts, i, ttl, maxSize, path, id) && KeyKept(acts, i, ttl, maxSize, path, id)
  }

  ghost predicate WrongKey(c: Cache, path: Id, id: Id) {
    HasKey(c, path, id) && !SoundKey(c, path)
  }

  lemma ReceiveKey(s: System, a: Act, ttl: int, maxSize: nat, path: Id, id: Id)
    requires maxSize >= 1 && Recorded(s, ttl, maxSize) && a.Receive?
    requires WrongKey(ReceiveCache(s, a.path, ttl, maxSize), path, id)
    ensures WrongKey(s.cache, path, id) || Orphans(s, a, maxSize, path, id)
  {
    var (looked, found) := GetByPath(s.cache, a.path, s.now);
    LookedUpEntries(s.cache, a.path, s.now, maxSize);
    if found.None? && LookupDb(s.db, a.path).Some? {
      KeyAfterSet(looked, LookupDb(s.db, a.path).value, s.now, ttl, maxSize, path);
    }
    if path in looked.index && a.path in s.cache.index {
      GetKeepsKey(s.cache, s.cache.index[a.path], s.now, path);
    }
  }

  /** A key that is wrong after an event was wrong before, or has just been orphaned. */
  lemma StepKey(s: System, a: Act, ttl: int, maxSize: nat, path: Id, id: Id)
    requires maxSize >= 1 && Recorded(s, ttl, maxSize) && WrongKey(NewCache(s, a, ttl, maxSize), path, id)
    ensures WrongKey(s.cache, path, id) || Orphans(s, a, maxSize, path, id)
  {
    match a {
      case Invalidate(i) => RemoveKeepsKey(s.cache, i, path);
      case Update(i, tenant, edit) =>
        if Writes(s.db, i, tenant, edit) {
          RemoveKeepsKey(s.cache, i, path);
        }
      case Delete(i, tenant) =>
        if Visible(s.db, i, tenant) {
          RemoveKeepsKey(s.cache, i, path);
        }
      case Receive(p) => ReceiveKey(s, a, ttl, maxSize, path, id);
      case _ =>
    }
  }

  lemma {:induction false} WrongKeyIsOrphan(acts: seq<Act>, ttl: int, maxSize: nat, path: Id, id: Id)
    requires maxSize >= 1 && WrongKey(After(acts, ttl, maxSize).cache, path, id)
    ensures Orphaned(acts, ttl, maxSize, path, id)
  {
    hide WrongKey, Orphans, NewCache;
    if acts == [] {
      NoKeys(path, id);
      assert false;
    } else {
      var init, last := acts[..|acts|-1], acts[|acts|-1];
      var s := After(init, ttl, maxSize);
      StaysRecorded(init, ttl, maxSize);
      StepKey(s, last, ttl, maxSize, path, id);
      WrongIsKey(After(acts, ttl, maxSize).cache, path, id);
      if WrongKey(s.cache, path, id) {
        WrongKeyIsOrphan(init, ttl, maxSize, path, id);
        OrphanLasts(acts, ttl, maxSize, path, id);
      } else {
        assert acts[..|acts|] == acts;
        assert OrphanedAt(acts, |init|, ttl, maxSize, path, id) && KeyKept(acts, |init|, ttl, maxSize, path, id);
      }
    }
  }

  lemma NoKeys(path: Id, id: Id)
    ensures !WrongKey(EMPTY, path, id)
  {
  }

  lemma WrongIsKey(c: Cache, path: Id, id: Id)
    requires WrongKey(c, path, id)
    ensures HasKey(c, path, id)
  {
  }

  lemma OrphanLasts(acts: seq<Act>, ttl: int, maxSize: nat, path: Id, id: Id)
    requires maxSize >= 1 && acts != [] && Orphaned(acts[..|acts|-1], ttl, maxSize, path, id)
    requires HasKey(After(acts, ttl, maxSize).cache, path, id)
    ensures Orphaned(acts, ttl, maxSize, path, id)
  {
    hide Orphans, HasKey, After;
    var init := acts[..|acts|-1];
    var i: nat :| OrphanedAt(init, i, ttl, maxSize, path, id) && KeyKept(init, i, ttl, maxSize, path, id);
    assert init[..i] == acts[..i];
    assert OrphanedAt(acts, i, ttl, maxSize, path, id);
    forall k | i < k <= |acts| ensures HasKey(After(acts[..k], ttl, maxSize).cache, path, id) {
      if k < |acts| {
        assert init[..k] == acts[..k];
      } else {
        assert acts[..k] == acts;
      }
    }
  }

  /**
   Main theorem: with one-step writes the lookup is wrong if and only if an eviction left the key of the
   path behind, nothing since dropped or overwrote it, and the evicted workflow is cached again while its
   row has another path.
   */
  lemma AnswerFailsIff(acts: seq<Act>, ttl: int, maxSize: nat, path: Id)
    requires maxSize >= 1 && OneStepWrites(acts)
    ensures var s := After(acts, ttl, maxSize);
      Answer(s, path) != LookupDb(s.db, path) <==>
        exists id :: Orphaned(acts, ttl, maxSize, path, id) && Misled(s, path, id)
  {
    var s := After(acts, ttl, maxSize);
    AnswerIsDatabaseIff(acts, ttl, maxSize, path);
    StaysCurrent(acts, ttl, maxSize);
    forall id | Misled(s, path, id) ensures Orphaned(acts, ttl, maxSize, path, id) {
      FindMember(s.cache.entries, id);
      assert WrongKey(s.cache, path, id);
      WrongKeyIsOrphan(acts, ttl, maxSize, path, id);
    }
  }

  // ---- With evictions, when no workflow changes its path ----

  /** Creations give a workflow its own path, and no update changes it. */
  ghost predicate KeepsPaths(acts: seq<Act>, own: Ownership) {
    forall i :: 0 <= i < |acts| ==> KeepsPath(acts[i], own)
  }

  ghost predicate KeepsPath(a: Act, own: Ownership) {
    match a
    case Create(w) => w.path == own(w.id)
    case Commit(id, _, edit) => NewPath(own(id), edit) == own(id)
    case Update(id, _, edit) => NewPath(own(id), edit) == own(id)
    case _ => true
  }

  ghost predicate RowsOwnPaths(db: Db, own: Ownership) {
    forall id :: id in db ==> db[id].id == id && db[id].path == own(id)
  }

  lemma StepKeepsIndexed(s: System, a: Act, ttl: int, maxSize: nat, own: Ownership)
    requires maxSize >= 1 && OneOwner(own) && Indexed(s.cache, own) && DbOk(s.db) && RowsOwnPaths(s.db, own)
    ensures Indexed(NewCache(s, a, ttl, maxSize), own)
  {
    match a {
      case Invalidate(id) => RemoveKeepsIndexed(s.cache, id, own);
      case Update(id, _, _) => RemoveKeepsIndexed(s.cache, id, own);
      case Delete(id, _) => RemoveKeepsIndexed(s.cache, id, own);
      case Receive(path) =>
        var (looked, found) := GetByPath(s.cache, path, s.now);
        if path in s.cache.index {
          GetKeepsIndexed(s.cache, s.cache.index[path], s.now, own);
        }
        if found.None? && LookupDb(s.db, path).Some? {
          SetKeepsIndexed(looked, LookupDb(s.db, path).value, s.now, ttl, maxSize, own);
        }
      case _ =>
    }
  }

  lemma {:induction false} KeptPathsStayIndexed(acts: seq<Act>, ttl: int, maxSize: nat, own: Ownership)
    requires maxSize >= 1 && OneOwner(own) && KeepsPaths(acts, own)
    ensures var s := After(acts, ttl, maxSize); Indexed(s.cache, own) && RowsOwnPaths(s.db, own)
  {
    if acts != [] {
      var init := acts[..|acts|-1];
      KeptPathsStayIndexed(init, ttl, maxSize, own);
      StepKeepsIndexed(After(init, ttl, maxSize), acts[|acts|-1], ttl, maxSize, own);
    }
  }

  /** Main theorem: evictions do no harm as long as every workflow keeps its path. */
  lemma AnswerIsDatabaseDespiteEvictions(acts: seq<Act>, ttl: int, maxSize: nat, own: Ownership, path: Id)
    requires maxSize >= 1 && OneStepWrites(acts) && OneOwner(own) && KeepsPaths(acts, own)
    ensures var s := After(acts, ttl, maxSize); Answer(s, path) == LookupDb(s.db, path)
  {
    var s := After(acts, ttl, maxSize);
    StaysRecorded(acts, ttl, maxSize);
    StaysCurrent(acts, ttl, maxSize);
    KeptPathsStayIndexed(acts, ttl, maxSize, own);
    LookupIsScan(s.cache, path, s.now, own);
    ScanMember(s.cache.entries, path, s.now);
    TrueHitIsCurrent(s, path, ttl, maxSize);
  }

  /**
   Main theorem: the same freshness with evictions and with writes whose invalidation comes later, as long
   as every workflow keeps its path.
   */
  lemma HitWasCurrentRecentlyDespiteEvictions(acts: seq<Act>, ttl: int, maxSize: nat, own: Ownership, path: Id)
    returns (k: nat)
    requires maxSize >= 1 && OneOwner(own) && KeepsPaths(acts, own)
    requires Hit(After(acts, ttl, maxSize), path).Some?
    ensures var s := After(acts, ttl, maxSize);
      k < |s.past| && s.now - ttl < s.past[k].time <= s.now && LookupDb(s.past[k].db, path) == Hit(s, path)
  {
    var s := After(acts, ttl, maxSize);
    StaysRecorded(acts, ttl, maxSize);
    KeptPathsStayIndexed(acts, ttl, maxSize, own);
    LookupIsScan(s.cache, path, s.now, own);
    ScanMember(s.cache.entries, path, s.now);
    k := TrueHitWasRow(s, ttl, maxSize, path);
  }

  // ---- Where it fails: an eviction, then a change of path ----

  lemma LookupMisses(db: Db, path: Id)
    requires forall id :: id in db ==> db[id].path != Some(path)
    ensures LookupDb(db, path) == None
  {
  }

  lemma OtherKey(e: Entry, id: Id)
    requires e.workflow.id != id
    ensures Find([e], id) == None && Without([e], id) == [e] && Evict([e], 1) == []
  {
    assert [e][1..] == [];
  }

  lemma AfterOne(acts: seq<Act>, a: Act, ttl: int, maxSize: nat)
    requires maxSize >= 1
    ensures After(acts + [a], ttl, maxSize) == Step(After(acts, ttl, maxSize), a, ttl, maxSize)
  {
    assert (acts + [a])[..|acts|] == acts;
  }

  ghost predicate Shows(s: System, db: Db, cache: Cache) {
    s.db == db && s.cache == cache && s.now == 0
  }

  /** Creating a workflow under a free path. */
  lemma Creates(s: System, w: Workflow, ttl: int)
    requires DbOk(s.db) && w.id !in s.db && !Taken(s.db, w) && s.now == 0
    ensures Shows(Step(s, Create(w), ttl, 1), s.db[w.id := w], s.cache)
  {
  }

  /** Editing a workflow that is not cached leaves the cache alone. */
  lemma Edits(s: System, e: Entry, id: Id, tenant: Id, edit: Edit, ttl: int)
    requires DbOk(s.db) && Writes(s.db, id, tenant, edit) && s.cache.entries == [e] && e.workflow.id != id && s.now == 0
    ensures Shows(Step(s, Update(id, tenant, edit), ttl, 1), s.db[id := Edited(s.db[id], edit)], s.cache)
  {
    OtherKey(e, id);
  }

  /** A cache of one entry: a request for a path that is not indexed pushes the entry out. */
  lemma Fills(s: System, row: Workflow, path: Id, ttl: int)
    requires DbOk(s.db) && row.id in s.db && s.db[row.id] == row && row.path == Some(path) && s.now == 0
    requires path !in s.cache.index
    requires s.cache.entries == [] || (|s.cache.entries| == 1 && s.cache.entries[0].workflow.id != row.id)
    ensures Shows(Step(s, Receive(path), ttl, 1), s.db, Cache([Entry(row, ttl)], s.cache.index[path := row.id]))
  {
    LookupFinds(s.db, path, row.id);
    if s.cache.entries != [] {
      OtherKey(s.cache.entries[0], row.id);
      assert s.cache.entries == [s.cache.entries[0]];
    }
  }

  const A := Workflow(1, 0, Some(10), 0)
  const B := Workflow(2, 0, Some(20), 0)
  const C := Workflow(1, 0, Some(30), 0)
  const BARE := Workflow(1, 0, None, 0)
  const UNHOOK := Edit(Some(false), 0, 0, true)
  const REHOOK := Edit(Some(true), 30, 0, true)

  lemma FillsAndPushesOut(s0: System, s1: System, s2: System, s3: System, ttl: int)
    requires Shows(s0, map[1 := A, 2 := B], EMPTY) && DbOk(s0.db)
    requires s1 == Step(s0, Receive(10), ttl, 1) && s2 == Step(s1, Receive(20), ttl, 1)
    requires s3 == Step(s2, Update(1, 0, UNHOOK), ttl, 1)
    ensures Shows(s3, map[1 := BARE, 2 := B], Cache([Entry(B, ttl)], map[10 := 1, 20 := 2]))
  {
    Fills(s0, A, 10, ttl);
    assert s1.cache == Cache([Entry(A, ttl)], map[10 := 1]);
    Fills(s1, B, 20, ttl);
    Edits(s2, Entry(B, ttl), 1, 0, UNHOOK, ttl);
  }

  lemma MovesAndFills(s3: System, s4: System, s5: System, ttl: int)
    requires Shows(s3, map[1 := BARE, 2 := B], Cache([Entry(B, ttl)], map[10 := 1, 20 := 2])) && DbOk(s3.db)
    requires s4 == Step(s3, Update(1, 0, REHOOK), ttl, 1) && s5 == Step(s4, Receive(30), ttl, 1)
    ensures Shows(s5, map[1 := C, 2 := B], Cache([Entry(C, ttl)], map[10 := 1, 20 := 2, 30 := 1]))
  {
    Edits(s3, Entry(B, ttl), 1, 0, REHOOK, ttl);
    Fills(s4, C, 30, ttl);
  }

  lemma CreatesBoth(ttl: int)
    ensures Shows(After([Create(A), Create(B)], ttl, 1), map[1 := A, 2 := B], EMPTY)
  {
    AfterOne([], Create(A), ttl, 1);
    Creates(START, A, ttl);
    var s := After([Create(A)], ttl, 1);
    assert [] + [Create(A)] == [Create(A)] && [Create(A)] + [Create(B)] == [Create(A), Create(B)];
    Creates(s, B, ttl);
    AfterOne([Create(A)], Create(B), ttl, 1);
  }

  lemma StaleAnswer(s: System, ttl: int)
    requires Shows(s, map[1 := C, 2 := B], Cache([Entry(C, ttl)], map[10 := 1, 20 := 2, 30 := 1])) && ttl > 0
    ensures Answer(s, 10) == Some(C) && LookupDb(s.db, 10) == None
  {
    LookupMisses(s.db, 10);
  }

  /**
   With one-step writes only. Workflow 1 is cached under path 10 and pushed out by workflow 2. Its trigger
   type is then changed away from webhook and back, which gives it path 30, and it is cached again.
   Path 10, which no row has any more, still answers.
   */
  lemma EvictionThenPathChangeFails(ttl: int)
    requires ttl > 0
    ensures var acts :=
        [Create(A), Create(B)] + [Receive(10)] + [Receive(20)] + [Update(1, 0, UNHOOK)] + [Update(1, 0, REHOOK)] + [Receive(30)];
      var s := After(acts, ttl, 1);
      OneStepWrites(acts) && Answer(s, 10) == Some(C) && LookupDb(s.db, 10) == None
  {
    hide After, Step, Answer, LookupDb, DbOk;
    var a0 := [Create(A), Create(B)];
    var a1 := a0 + [Receive(10)];
    var a2 := a1 + [Receive(20)];
    var a3 := a2 + [Update(1, 0, UNHOOK)];
    var a4 := a3 + [Update(1, 0, REHOOK)];
    CreatesBoth(ttl);
    AfterOne(a0, Receive(10), ttl, 1);
    AfterOne(a1, Receive(20), ttl, 1);
    AfterOne(a2, Update(1, 0, UNHOOK), ttl, 1);
    AfterOne(a3, Update(1, 0, REHOOK), ttl, 1);
    AfterOne(a4, Receive(30), ttl, 1);
    var s3, s4 := After(a3, ttl, 1), After(a4, ttl, 1);
    FillsAndPushesOut(After(a0, ttl, 1), After(a1, ttl, 1), After(a2, ttl, 1), s3, ttl);
    MovesAndFills(s3, s4, After(a4 + [Receive(30)], ttl, 1), ttl);
    StaleAnswer(After(a4 + [Receive(30)], ttl, 1), ttl);
  }

  // ---- The request handlers ----

  /** Unchanged without a new trigger type, cleared when it is not webhook, and otherwise kept or generated. */
  ghost function PathAfter(path: Option<Id>, webhook: Option<bool>, generated: Id): Option<Id> {
    if webhook == None then path
    else if webhook == Some(false) then None
    else if path == None then Some(generated)
    else path
  }

  /** The tenant's row has the new content and path, and no other row changes. */
  ghost predicate IsEdited(a: Db, b: Db, id: Id, tenant: Id, edit: Edit) {
    && id in a && a[id].tenant == tenant && b.Keys == a.Keys
    && (forall k :: k in a && k != id ==> b[k] == a[k])
    && b[id].id == id && b[id].tenant == tenant && b[id].body == edit.body
    && b[id].path == PathAfter(a[id].path, edit.webhook, edit.generated)
  }

  /** The row is gone, and no other row changes. */
  ghost predicate IsWithout(a: Db, b: Db, id: Id) {
    id !in b && forall k :: k != id ==> (k in b <==> k in a) && (k in a ==> b[k] == a[k])
  }

  class Server {
    var db: Db
    const cache: CacheObject

    constructor (cache: CacheObject)
      ensures this.cache == cache && db == map[]
    {
      this.cache, db := cache, map[];
    }

    /** The database query by path. */
    method LookupWorkflowByPath(path: Id) returns (row: Option<Workflow>)
      requires DbOk(db)
      ensures row == LookupDb(db, path)
    {
      if id :| id in db && db[id].path == Some(path) {
        LookupFinds(db, path, id);
        return Some(db[id]);
      }
      return None;
    }

    /** Cache first, then the database, filling the cache. */
    method ReceiveWebhook(path: Id, now: int) returns (workflow: Option<Workflow>)
      requires DbOk(db) && cache.maxSize >= 1 && DistinctKeys(cache.entries)
      modifies cache
      ensures var s := System(db, old(cache.State()), now, []);
        cache.State() == ReceiveCache(s, path, cache.ttl, cache.maxSize) && workflow == Answer(s, path)
    {
      LookupKeepsDistinct(cache.State(), path, now);
      workflow := cache.LookupPath(path, now);
      if workflow.Some? {
        return;
      }
      workflow := LookupWorkflowByPath(path);
      if workflow.Some? {
        var raised := cache.Store(workflow.value, now);
      }
    }

    /** Writes the row, unless it is not found or the update fails, and then drops the cached copy. */
    method UpdateWorkflow(id: Id, tenant: Id, edit: Edit) returns (done: bool)
      requires DbOk(db)
      modifies this, cache
      ensures done == Writes(old(db), id, tenant, edit) && db == Written(old(db), id, tenant, edit)
      ensures id !in old(db) || old(db)[id].tenant != tenant || !edit.stepsOk ==> !done
      ensures id in old(db) && old(db)[id].tenant == tenant && edit.stepsOk ==>
        var path := PathAfter(old(db)[id].path, edit.webhook, edit.generated);
        (done <==> (path.Some? ==> forall k :: k in old(db) && k != id ==> old(db)[k].path != path))
      ensures if done then IsEdited(old(db), db, id, tenant, edit) else db == old(db)
      ensures cache.State() == if done then Remove(old(cache.State()), id) else old(cache.State())
    {
      if id !in db || db[id].tenant != tenant {
        return false;
      }
      if !edit.stepsOk {
        return false;
      }
      var row := db[id];
      var path := row.path;
      if edit.webhook == Some(true) && path.None? {
        path := Some(edit.generated);
      } else if edit.webhook == Some(false) {
        path := None;
      }
      row := Workflow(id, tenant, path, edit.body);
      if Taken(db, row) {
        return false;
      }
      db := db[id := row];
      cache.Invalidate(id);
      return true;
    }

    method DeleteWorkflow(id: Id, tenant: Id) returns (done: bool)
      modifies this, cache
      ensures done == Visible(old(db), id, tenant) && db == Deleted(old(db), id, tenant)
      ensures done <==> id in old(db) && old(db)[id].tenant == tenant
      ensures if done then IsWithout(old(db), db, id) else db == old(db)
      ensures cache.State() == if done then Remove(old(cache.State()), id) else old(cache.State())
    {
      if id !in db || db[id].tenant != tenant {
        return false;
      }
      db := db - {id};
      cache.Invalidate(id);
      return true;
    }
  }

  lemma LookupKeepsDistinct(c: Cache, path: Id, now: int)
    requires DistinctKeys(c.entries)
    ensures DistinctKeys(GetByPath(c, path, now).0.entries)
  {
    LookedUpEntries(c, path, now, |c.entries|);
  }
}
