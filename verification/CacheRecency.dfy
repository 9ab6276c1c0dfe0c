/**
 What the cache holds after any history of operations: an entry is there if and only if it was stored and
 nothing dropped it since, and what a full cache drops is the entry whose last use lies furthest back.
 */
module CacheRecency {
  import opened Common
  import opened WorkflowCache

  // ---- One operation ----

  /** The operation takes the entry out of the cache. */
  ghost predicate Drops(c: Cache, op: Op, now: int, maxSize: nat, e: Entry) {
    || op.ClearOp?
    || (op.InvalidateOp? && op.id == e.workflow.id)
    || (op.GetOp? && op.id == e.workflow.id && now >= e.expiresAt)
    || (op.PathOp? && op.path in c.index && c.index[op.path] == e.workflow.id && now >= e.expiresAt)
    || (op.SetOp? && op.w.id == e.workflow.id)
    || (op.SetOp? && Evicts(c, op.w.id, maxSize) && e == c.entries[0])
  }

  /** Storing a workflow that is not in the cache, when the cache is full. */
  ghost predicate Evicts(c: Cache, id: Id, maxSize: nat) {
    |c.entries| == maxSize && c.entries != [] && forall x :: x in c.entries ==> x.workflow.id != id
  }

  ghost predicate Puts(op: Op, now: int, ttl: int, e: Entry) {
    op.SetOp? && e.workflow == op.w && e.expiresAt == now + ttl
  }

  lemma WithoutIfAbsent(es: seq<Entry>, id: Id)
    requires forall x :: x in es ==> x.workflow.id != id
    ensures Without(es, id) == es
  {
    FindMember(es, id);
    WithoutMissing(es, id);
  }

  /** Room is made by dropping the first entry, and only in a full cache that does not hold the workflow. */
  lemma KeptBySet(c: Cache, id: Id, maxSize: nat)
    requires maxSize >= 1 && WellKept(c.entries, maxSize)
    ensures var kept := Without(c.entries, id);
      Evict(kept, maxSize) == if Evicts(c, id, maxSize) then c.entries[1..] else kept
  {
    var kept := Without(c.entries, id);
    WithoutMembers(c.entries, id);
    WithoutSize(c.entries, id);
    FindMember(c.entries, id);
    EvictKeeps(kept, maxSize);
    if Find(c.entries, id).None? {
      WithoutIfAbsent(c.entries, id);
    }
  }

  lemma FirstLeaves(es: seq<Entry>, e: Entry)
    requires DistinctKeys(es) && es != [] && e in es
    ensures e in es[1..] <==> e != es[0]
  {
    assert es == [es[0]] + es[1..];
  }

  /** After one operation the cache holds what it puts in, and of the rest what it does not drop. */
  lemma HeldAfter(c: Cache, op: Op, now: int, ttl: int, maxSize: nat, e: Entry)
    requires maxSize >= 1 && WellKept(c.entries, maxSize)
    ensures e in Apply(c, op, now, ttl, maxSize).entries <==>
      Puts(op, now, ttl, e) || (e in c.entries && !Drops(c, op, now, maxSize, e))
  {
    hide WellKept, DistinctKeys;
    match op {
      case SetOp(w) =>
        WithoutMembers(c.entries, w.id);
        KeptBySet(c, w.id, maxSize);
        KeptEntries(c, w.id, maxSize, e);
      case GetOp(id) => HeldAfterGet(c, id, now, e, maxSize);
      case PathOp(path) =>
        if path in c.index {
          HeldAfterGet(c, c.index[path], now, e, maxSize);
        }
      case InvalidateOp(id) => WithoutMembers(c.entries, id);
      case ClearOp =>
    }
  }

  lemma KeptEntries(c: Cache, id: Id, maxSize: nat, e: Entry)
    requires maxSize >= 1 && WellKept(c.entries, maxSize)
    ensures Evicts(c, id, maxSize) && e in c.entries ==> (e in c.entries[1..] <==> e != c.entries[0])
    ensures Evicts(c, id, maxSize) && e in c.entries[1..] ==> e in c.entries
  {
    if Evicts(c, id, maxSize) && e in c.entries {
      FirstLeaves(c.entries, e);
    }
  }

  lemma HeldAfterGet(c: Cache, id: Id, now: int, e: Entry, maxSize: nat)
    requires WellKept(c.entries, maxSize)
    ensures e in GetById(c, id, now).0.entries <==>
      e in c.entries && !(id == e.workflow.id && now >= e.expiresAt)
  {
    WithoutMembers(c.entries, id);
    FindMember(c.entries, id);
    if e in c.entries {
      FindUnique(c.entries, e);
    }
  }

  /** A lookup by id answers with a workflow if and only if the cache holds it unexpired. */
  lemma AnswerIff(c: Cache, id: Id, now: int, w: Workflow)
    requires DistinctKeys(c.entries)
    ensures GetById(c, id, now).1 == Some(w) <==>
      exists e :: e in c.entries && e.workflow == w && w.id == id && now < e.expiresAt
  {
    FindMember(c.entries, id);
    forall e | e in c.entries && e.workflow == w && w.id == id ensures Find(c.entries, id) == Some(e) {
      FindUnique(c.entries, e);
    }
  }

  ghost predicate Key(c: Cache, path: Id, id: Id) {
    path in c.index && c.index[path] == id
  }

  /** The operation takes out an entry with the path otherwise than by pushing it out. */
  ghost predicate Unlinks(c: Cache, op: Op, now: int, path: Id) {
    exists e :: e in c.entries && e.workflow.path == Some(path) &&
      ((op.InvalidateOp? && op.id == e.workflow.id)
       || (op.SetOp? && op.w.id == e.workflow.id)
       || (op.GetOp? && op.id == e.workflow.id && now >= e.expiresAt)
       || (op.PathOp? && Key(c, op.path, e.workflow.id) && now >= e.expiresAt))
  }

  lemma DroppedPath(c: Cache, id: Id, path: Id)
    requires DistinctKeys(c.entries)
    ensures path in DropPath(c, id) <==>
      path in c.index && forall e :: e in c.entries && e.workflow.id == id ==> e.workflow.path != Some(path)
    ensures path in DropPath(c, id) ==> DropPath(c, id)[path] == c.index[path]
  {
    FindMember(c.entries, id);
    forall e | e in c.entries && e.workflow.id == id ensures Find(c.entries, id) == Some(e) {
      FindUnique(c.entries, e);
    }
  }

  lemma KeyAfterGet(c: Cache, looked: Id, now: int, path: Id)
    requires DistinctKeys(c.entries)
    ensures var d := GetById(c, looked, now).0;
      && (path in d.index <==> path in c.index && forall e ::
            e in c.entries && e.workflow.id == looked && now >= e.expiresAt ==> e.workflow.path != Some(path))
      && (path in d.index ==> d.index[path] == c.index[path])
  {
    FindMember(c.entries, looked);
    DroppedPath(c, looked, path);
    forall e | e in c.entries && e.workflow.id == looked ensures Find(c.entries, looked) == Some(e) {
      FindUnique(c.entries, e);
    }
  }

  /**
   After one operation a path leads to a workflow if and only if the operation stores that workflow with the
   path, or it led there before and is neither overwritten, cleared nor taken out with an entry of that path.
   */
  lemma KeyAfter(c: Cache, op: Op, now: int, ttl: int, maxSize: nat, path: Id, id: Id)
    requires maxSize >= 1 && DistinctKeys(c.entries)
    ensures Key(Apply(c, op, now, ttl, maxSize), path, id) <==>
      || (op.SetOp? && op.w.path == Some(path) && op.w.id == id)
      || (Key(c, path, id) && !op.ClearOp? && !(op.SetOp? && op.w.path == Some(path)) && !Unlinks(c, op, now, path))
  {
    hide DistinctKeys, DropPath, Find, GetById;
    match op {
      case SetOp(w) => DroppedPath(c, w.id, path);
      case GetOp(looked) => KeyAfterGet(c, looked, now, path);
      case PathOp(asked) =>
        if asked in c.index {
          KeyAfterGet(c, c.index[asked], now, path);
        }
      case InvalidateOp(gone) => DroppedPath(c, gone, path);
      case ClearOp =>
    }
  }

  // ---- The last use of a workflow ----

  /** The workflow that the k-th operation finds. */
  ghost function FoundAt(events: seq<Event>, k: nat, ttl: int, maxSize: nat): Option<Workflow>
    requires maxSize >= 1 && k < |events|
  {
    var c, now := After(events[..k], ttl, maxSize), events[k].now;
    match events[k].op
    case GetOp(id) => GetById(c, id, now).1
    case PathOp(path) => GetByPath(c, path, now).1
    case _ => None
  }

  /** The k-th operation stores the workflow, or finds it. */
  ghost predicate Uses(events: seq<Event>, k: nat, ttl: int, maxSize: nat, id: Id)
    requires maxSize >= 1
  {
    && k < |events|
    && ((events[k].op.SetOp? && events[k].op.w.id == id)
        || (FoundAt(events, k, ttl, maxSize).Some? && FoundAt(events, k, ttl, maxSize).value.id == id))
  }

  /** The position of the last operation that used the workflow, or -1. */
  ghost function LastUse(events: seq<Event>, ttl: int, maxSize: nat, id: Id): int
    requires maxSize >= 1
  {
    if events == [] then -1
    else if Uses(events, |events| - 1, ttl, maxSize, id) then |events| - 1
    else LastUse(events[..|events|-1], ttl, maxSize, id)
  }

  lemma {:induction false} LastUseIsLast(events: seq<Event>, ttl: int, maxSize: nat, id: Id)
    requires maxSize >= 1
    ensures var last := LastUse(events, ttl, maxSize, id);
      && -1 <= last < |events| && (last >= 0 ==> Uses(events, last, ttl, maxSize, id))
      && forall k: nat :: last < k < |events| ==> !Uses(events, k, ttl, maxSize, id)
  {
    hide Uses;
    if events != [] && !Uses(events, |events| - 1, ttl, maxSize, id) {
      var init := events[..|events|-1];
      LastUseIsLast(init, ttl, maxSize, id);
      forall k: nat | k < |init| ensures Uses(init, k, ttl, maxSize, id) <==> Uses(events, k, ttl, maxSize, id) {
        UsesEarlier(events, k, ttl, maxSize, id);
      }
    }
  }

  lemma UsesEarlier(events: seq<Event>, k: nat, ttl: int, maxSize: nat, id: Id)
    requires maxSize >= 1 && k < |events| - 1
    ensures Uses(events[..|events|-1], k, ttl, maxSize, id) <==> Uses(events, k, ttl, maxSize, id)
  {
    assert events[..|events|-1][..k] == events[..k];
  }

  // ---- Entries stand in the order of their last use ----

  ghost predicate InOrder(es: seq<Entry>, events: seq<Event>, ttl: int, maxSize: nat)
    requires maxSize >= 1
  {
    forall i, j :: 0 <= i < j < |es| ==>
      LastUse(events, ttl, maxSize, es[i].workflow.id) < LastUse(events, ttl, maxSize, es[j].workflow.id)
  }

  lemma {:induction false} WithoutKeepsOrder(es: seq<Entry>, id: Id, events: seq<Event>, ttl: int, maxSize: nat)
    requires maxSize >= 1 && InOrder(es, events, ttl, maxSize)
    ensures InOrder(Without(es, id), events, ttl, maxSize)
  {
    hide LastUse;
    if es != [] {
      var rest := es[1..];
      WithoutKeepsOrder(rest, id, events, ttl, maxSize);
      WithoutMembers(rest, id);
      forall x | x in rest
        ensures LastUse(events, ttl, maxSize, es[0].workflow.id) < LastUse(events, ttl, maxSize, x.workflow.id)
      {
        var k :| 0 <= k < |rest| && rest[k] == x;
        assert es[k + 1] == x;
      }
    }
  }

  /** An operation that uses only `id`, or nothing, leaves the order of the others as it was. */
  lemma OthersKeepOrder(es: seq<Entry>, events: seq<Event>, ttl: int, maxSize: nat)
    requires maxSize >= 1 && events != [] && InOrder(es, events[..|events|-1], ttl, maxSize)
    requires forall x :: x in es ==> !Uses(events, |events| - 1, ttl, maxSize, x.workflow.id)
    ensures InOrder(es, events, ttl, maxSize)
  {
    hide Uses;
  }

  lemma JoinOrder(es: seq<Entry>, e: Entry, events: seq<Event>, ttl: int, maxSize: nat)
    requires maxSize >= 1 && events != [] && InOrder(es, events, ttl, maxSize)
    requires forall x :: x in es ==> !Uses(events, |events| - 1, ttl, maxSize, x.workflow.id)
    requires Uses(events, |events| - 1, ttl, maxSize, e.workflow.id)
    ensures InOrder(es + [e], events, ttl, maxSize)
  {
    hide Uses;
    forall x | x in es ensures LastUse(events, ttl, maxSize, x.workflow.id) < |events| - 1 {
      LastUseIsLast(events[..|events|-1], ttl, maxSize, x.workflow.id);
    }
    assert forall i :: 0 <= i < |es| ==> es[i] in es;
  }

  /** The last operation looked up `id`. */
  lemma GetKeepsOrder(events: seq<Event>, c: Cache, id: Id, now: int, ttl: int, maxSize: nat)
    requires maxSize >= 1 && events != [] && c == After(events[..|events|-1], ttl, maxSize) && now == events[|events|-1].now
    requires DistinctKeys(c.entries) && InOrder(c.entries, events[..|events|-1], ttl, maxSize)
    requires var op := events[|events|-1].op;
      op == GetOp(id) || (op.PathOp? && op.path in c.index && c.index[op.path] == id)
    ensures InOrder(GetById(c, id, now).0.entries, events, ttl, maxSize)
  {
    hide InOrder, After, LastUse;
    var init := events[..|events|-1];
    assert FoundAt(events, |events| - 1, ttl, maxSize) == GetById(c, id, now).1;
    FindMember(c.entries, id);
    WithoutMembers(c.entries, id);
    WithoutKeepsOrder(c.entries, id, init, ttl, maxSize);
    var kept := Without(c.entries, id);
    if Find(c.entries, id).None? {
      OthersKeepOrder(c.entries, events, ttl, maxSize);
    } else {
      OthersKeepOrder(kept, events, ttl, maxSize);
      if now < Find(c.entries, id).value.expiresAt {
        JoinOrder(kept, Find(c.entries, id).value, events, ttl, maxSize);
      }
    }
  }

  lemma SetKeepsOrder(events: seq<Event>, c: Cache, w: Workflow, now: int, ttl: int, maxSize: nat)
    requires maxSize >= 1 && events != [] && WellKept(c.entries, maxSize) && events[|events|-1].op == SetOp(w)
    requires InOrder(c.entries, events[..|events|-1], ttl, maxSize)
    ensures InOrder(Set(c, w, now, ttl, maxSize).entries, events, ttl, maxSize)
  {
    hide LastUse;
    var init, kept := events[..|events|-1], Without(c.entries, w.id);
    KeptBySet(c, w.id, maxSize);
    WithoutMembers(c.entries, w.id);
    WithoutKeepsOrder(c.entries, w.id, init, ttl, maxSize);
    EvictKeeps(kept, maxSize);
    var left := Evict(kept, maxSize);
    assert InOrder(left, init, ttl, maxSize);
    OthersKeepOrder(left, events, ttl, maxSize);
    JoinOrder(left, Entry(w, now + ttl), events, ttl, maxSize);
  }

  /** Main theorem: after every history the entries stand in the order of their last uses. */
  lemma {:induction false} EntriesInOrderOfUse(events: seq<Event>, ttl: int, maxSize: nat)
    requires maxSize >= 1
    ensures InOrder(After(events, ttl, maxSize).entries, events, ttl, maxSize)
  {
    hide InOrder, WellKept;
    NoEntries(ttl, maxSize);
    if events != [] {
      var init, last := events[..|events|-1], events[|events|-1];
      var c := After(init, ttl, maxSize);
      EntriesInOrderOfUse(init, ttl, maxSize);
      CapacityHolds(init, ttl, maxSize);
      Unkept(c.entries, maxSize);
      match last.op {
        case SetOp(w) => SetKeepsOrder(events, c, w, last.now, ttl, maxSize);
        case GetOp(id) => GetKeepsOrder(events, c, id, last.now, ttl, maxSize);
        case PathOp(path) =>
          if path in c.index {
            GetKeepsOrder(events, c, c.index[path], last.now, ttl, maxSize);
          } else {
            OthersKeepOrder(c.entries, events, ttl, maxSize);
          }
        case InvalidateOp(id) =>
          WithoutKeepsOrder(c.entries, id, init, ttl, maxSize);
          OthersKeepOrder(Without(c.entries, id), events, ttl, maxSize);
        case ClearOp => NoneInOrder(events, ttl, maxSize);
      }
    }
  }

  lemma NoEntries(ttl: int, maxSize: nat)
    requires maxSize >= 1
    ensures After([], ttl, maxSize).entries == [] && InOrder([], [], ttl, maxSize)
  {
  }

  lemma NoneInOrder(events: seq<Event>, ttl: int, maxSize: nat)
    requires maxSize >= 1
    ensures InOrder([], events, ttl, maxSize)
  {
  }

  lemma Unkept(es: seq<Entry>, maxSize: nat)
    requires WellKept(es, maxSize)
    ensures DistinctKeys(es) && |es| <= maxSize
  {
  }

  // ---- What the cache holds ----

  /**
   Storing a workflow pushes another one out if and only if the cache is full without it and the other one
   is the least recently used of all.
   */
  lemma PushedOutIff(events: seq<Event>, w: Workflow, now: int, ttl: int, maxSize: nat, e: Entry)
    requires maxSize >= 1 && e in After(events, ttl, maxSize).entries && e.workflow.id != w.id
    ensures var es := After(events, ttl, maxSize).entries;
      e !in After(events + [Event(SetOp(w), now)], ttl, maxSize).entries <==>
        && |es| == maxSize && (forall x :: x in es ==> x.workflow.id != w.id)
        && forall x :: x in es && x != e ==>
             LastUse(events, ttl, maxSize, e.workflow.id) < LastUse(events, ttl, maxSize, x.workflow.id)
  {
    hide WellKept, LastUse, DistinctKeys;
    var c := After(events, ttl, maxSize);
    assert (events + [Event(SetOp(w), now)])[..|events|] == events;
    CapacityHolds(events, ttl, maxSize);
    HeldAfter(c, SetOp(w), now, ttl, maxSize, e);
    EntriesInOrderOfUse(events, ttl, maxSize);
    FirstIsLeast(c.entries, events, ttl, maxSize, e);
  }

  lemma FirstIsLeast(es: seq<Entry>, events: seq<Event>, ttl: int, maxSize: nat, e: Entry)
    requires maxSize >= 1 && InOrder(es, events, ttl, maxSize) && e in es
    ensures e == es[0] <==> forall x :: x in es && x != e ==>
      LastUse(events, ttl, maxSize, e.workflow.id) < LastUse(events, ttl, maxSize, x.workflow.id)
  {
    hide LastUse;
    var k :| 0 <= k < |es| && es[k] == e;
    if e != es[0] {
      assert es[0] in es;
    }
  }

  /** The operation at k put the entry in, and none since has dropped it. */
  ghost predicate HeldSince(events: seq<Event>, k: nat, ttl: int, maxSize: nat, e: Entry)
    requires maxSize >= 1
  {
    && k < |events| && Puts(events[k].op, events[k].now, ttl, e)
    && forall j :: k < j < |events| ==> !Drops(After(events[..j], ttl, maxSize), events[j].op, events[j].now, maxSize, e)
  }

  lemma HeldEarlier(events: seq<Event>, k: nat, ttl: int, maxSize: nat, e: Entry)
    requires maxSize >= 1 && events != [] && k < |events| - 1
    ensures var init, last := events[..|events|-1], events[|events|-1];
      HeldSince(events, k, ttl, maxSize, e) <==>
        HeldSince(init, k, ttl, maxSize, e) && !Drops(After(init, ttl, maxSize), last.op, last.now, maxSize, e)
  {
    hide Drops, Puts, After;
    var init := events[..|events|-1];
    assert forall j :: 0 <= j < |init| ==> init[..j] == events[..j];
  }

  lemma HeldFromLast(events: seq<Event>, ttl: int, maxSize: nat, e: Entry)
    requires maxSize >= 1 && events != []
    ensures var last := events[|events|-1];
      HeldSince(events, |events| - 1, ttl, maxSize, e) <==> Puts(last.op, last.now, ttl, e)
    ensures forall k: nat :: HeldSince(events, k, ttl, maxSize, e) ==> k < |events|
  {
  }

  lemma HeldOnward(events: seq<Event>, ttl: int, maxSize: nat, e: Entry)
    requires maxSize >= 1 && events != []
    ensures var init, last := events[..|events|-1], events[|events|-1];
      (exists k: nat :: HeldSince(events, k, ttl, maxSize, e)) <==>
        || Puts(last.op, last.now, ttl, e)
        || ((exists k: nat :: HeldSince(init, k, ttl, maxSize, e))
            && !Drops(After(init, ttl, maxSize), last.op, last.now, maxSize, e))
  {
    hide HeldSince, Drops, Puts, After;
    var init := events[..|events|-1];
    HeldFromLast(events, ttl, maxSize, e);
    if init != [] {
      HeldFromLast(init, ttl, maxSize, e);
    } else {
      NothingHeld(ttl, maxSize, e);
    }
    forall k: nat | k < |init|
      ensures HeldSince(events, k, ttl, maxSize, e) <==>
        HeldSince(init, k, ttl, maxSize, e)
        && !Drops(After(init, ttl, maxSize), events[|events|-1].op, events[|events|-1].now, maxSize, e)
    {
      HeldEarlier(events, k, ttl, maxSize, e);
    }
  }

  lemma NothingHeld(ttl: int, maxSize: nat, e: Entry)
    requires maxSize >= 1
    ensures forall k: nat :: !HeldSince([], k, ttl, maxSize, e)
  {
  }

  /**
   Main theorem: after every history the cache holds an entry if and only if some operation put it in and
   none since has dropped it. Only expiry met by a lookup, invalidation, clearing, storing the workflow
   again and being pushed out drop an entry.
   */
  lemma {:induction false} HeldIff(events: seq<Event>, ttl: int, maxSize: nat, e: Entry)
    requires maxSize >= 1
    ensures e in After(events, ttl, maxSize).entries <==> exists k: nat :: HeldSince(events, k, ttl, maxSize, e)
  {
    hide Drops, Puts, WellKept, HeldSince;
    NothingHeld(ttl, maxSize, e);
    if events != [] {
      var init, last := events[..|events|-1], events[|events|-1];
      HeldIff(init, ttl, maxSize, e);
      CapacityHolds(init, ttl, maxSize);
      HeldAfter(After(init, ttl, maxSize), last.op, last.now, ttl, maxSize, e);
      HeldOnward(events, ttl, maxSize, e);
    }
  }
}
