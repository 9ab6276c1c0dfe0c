/**
 The in-memory cache of workflow definitions: entries ordered from least to most recently used, each
 with an expiry time, and a secondary index from webhook paths to workflow ids.
 */
module WorkflowCache {
  import opened Common

  /** A workflow row; no path stands for an absent or empty webhook path. */
  datatype Workflow = Workflow(id: Id, tenant: Id, path: Option<Id>, body: nat)

  datatype Entry = Entry(workflow: Workflow, expiresAt: int)

  datatype Cache = Cache(entries: seq<Entry>, index: map<Id, Id>)

  const EMPTY := Cache([], map[])

  // ---- The ordered dictionary ----

  function Find(es: seq<Entry>, id: Id): Option<Entry> {
    if es == [] then None
    else if es[0].workflow.id == id then Some(es[0])
    else Find(es[1..], id)
  }

  function Without(es: seq<Entry>, id: Id): (r: seq<Entry>)
    ensures |r| <= |es|
  {
    if es == [] then []
    else if es[0].workflow.id == id then Without(es[1..], id)
    else [es[0]] + Without(es[1..], id)
  }

  ghost predicate DistinctKeys(es: seq<Entry>) {
    forall i, j :: 0 <= i < j < |es| ==> es[i].workflow.id != es[j].workflow.id
  }

  /** Drops the oldest entries until there is room for one more. */
  function Evict(es: seq<Entry>, maxSize: nat): (r: seq<Entry>)
    requires maxSize >= 1
    ensures |r| < maxSize && |r| <= |es|
  {
    if |es| < maxSize then es else Evict(es[1..], maxSize)
  }

  // ---- The operations ----

  /** The index without the path of the cached workflow `id`. */
  function DropPath(c: Cache, id: Id): map<Id, Id> {
    match Find(c.entries, id)
    case Some(e) => if e.workflow.path.Some? then c.index - {e.workflow.path.value} else c.index
    case None => c.index
  }

  function Remove(c: Cache, id: Id): Cache {
    Cache(Without(c.entries, id), DropPath(c, id))
  }

  function GetById(c: Cache, id: Id, now: int): (Cache, Option<Workflow>) {
    match Find(c.entries, id)
    case None => (c, None)
    case Some(e) =>
      if now >= e.expiresAt then (Remove(c, id), None)
      else (c.(entries := Without(c.entries, id) + [e]), Some(e.workflow))
  }

  function GetByPath(c: Cache, path: Id, now: int): (Cache, Option<Workflow>) {
    if path !in c.index then (c, None) else GetById(c, c.index[path], now)
  }

  /** Evicted entries leave their index key behind: the entry is gone when its path is looked up. */
  function Set(c: Cache, w: Workflow, now: int, ttl: int, maxSize: nat): Cache
    requires maxSize >= 1
  {
    var cleared := Remove(c, w.id);
    Cache(Evict(cleared.entries, maxSize) + [Entry(w, now + ttl)],
          if w.path.Some? then cleared.index[w.path.value := w.id] else cleared.index)
  }

  datatype Op = SetOp(w: Workflow) | GetOp(id: Id) | PathOp(path: Id) | InvalidateOp(id: Id) | ClearOp

  function Apply(c: Cache, op: Op, now: int, ttl: int, maxSize: nat): Cache
    requires maxSize >= 1
  {
    match op
    case SetOp(w) => Set(c, w, now, ttl, maxSize)
    case GetOp(id) => GetById(c, id, now).0
    case PathOp(path) => GetByPath(c, path, now).0
    case InvalidateOp(id) => Remove(c, id)
    case ClearOp => EMPTY
  }

  /** One operation at one time. */
  datatype Event = Event(op: Op, now: int)

  ghost function After(events: seq<Event>, ttl: int, maxSize: nat): Cache
    requires maxSize >= 1
  {
    if events == [] then EMPTY
    else
      var last := events[|events|-1];
      Apply(After(events[..|events|-1], ttl, maxSize), last.op, last.now, ttl, maxSize)
  }

  // ---- Facts about the ordered dictionary ----

  lemma {:induction false} FindMember(es: seq<Entry>, id: Id)
    ensures Find(es, id).Some? <==> exists e :: e in es && e.workflow.id == id
    ensures Find(es, id).Some? ==> Find(es, id).value in es && Find(es, id).value.workflow.id == id
  {
    if es != [] {
      FindMember(es[1..], id);
      assert forall e :: e in es <==> e == es[0] || e in es[1..];
    }
  }

  lemma {:induction false} FindUnique(es: seq<Entry>, e: Entry)
    requires DistinctKeys(es) && e in es
    ensures Find(es, e.workflow.id) == Some(e)
  {
    if es[0] != e {
      assert e in es[1..];
      FindUnique(es[1..], e);
      var k :| 0 <= k < |es[1..]| && es[1..][k] == e;
      assert es[k+1] == e;
    }
  }

  lemma {:induction false} WithoutMembers(es: seq<Entry>, id: Id)
    ensures forall e :: e in Without(es, id) <==> e in es && e.workflow.id != id
    ensures DistinctKeys(es) ==> DistinctKeys(Without(es, id))
  {
    if es != [] {
      var rest := es[1..];
      WithoutMembers(rest, id);
      assert forall e :: e in es <==> e == es[0] || e in rest;
      var r := Without(es, id);
      if es[0].workflow.id != id {
        assert forall e :: e in r <==> e == es[0] || e in Without(rest, id);
        if DistinctKeys(es) {
          ConsDistinct(es[0], Without(rest, id), rest);
        }
      }
    }
  }

  lemma ConsDistinct(e: Entry, a: seq<Entry>, b: seq<Entry>)
    requires DistinctKeys([e] + b) && DistinctKeys(a) && forall x :: x in a ==> x in b
    ensures DistinctKeys([e] + a)
  {
    forall x | x in a ensures x.workflow.id != e.workflow.id {
      var k :| 0 <= k < |b| && b[k] == x;
      assert ([e] + b)[k+1] == x && ([e] + b)[0] == e;
    }
    var c := [e] + a;
    forall i, j | 0 <= i < j < |c| ensures c[i].workflow.id != c[j].workflow.id {
      assert c[j] in a;
    }
  }

  lemma {:induction false} WithoutSize(es: seq<Entry>, id: Id)
    requires DistinctKeys(es)
    ensures |Without(es, id)| == |es| - if Find(es, id).Some? then 1 else 0
  {
    if es != [] {
      assert DistinctKeys(es[1..]);
      WithoutSize(es[1..], id);
      if es[0].workflow.id == id {
        FindMember(es[1..], id);
        forall e | e in es[1..] ensures e.workflow.id != id {
          var k :| 0 <= k < |es[1..]| && es[1..][k] == e;
          assert es[k+1] == e;
        }
      }
    }
  }

  lemma AppendFresh(es: seq<Entry>, e: Entry)
    requires DistinctKeys(es) && forall x :: x in es ==> x.workflow.id != e.workflow.id
    ensures DistinctKeys(es + [e])
  {
    var c := es + [e];
    forall i, j | 0 <= i < j < |c| ensures c[i].workflow.id != c[j].workflow.id {
      assert c[i] in es;
    }
  }

  lemma {:induction false} EvictKeeps(es: seq<Entry>, maxSize: nat)
    requires maxSize >= 1
    ensures DistinctKeys(es) ==> DistinctKeys(Evict(es, maxSize))
    ensures forall e :: e in Evict(es, maxSize) ==> e in es
    ensures |es| <= maxSize ==> Evict(es, maxSize) == if |es| < maxSize then es else es[1..]
  {
    if |es| >= maxSize {
      EvictKeeps(es[1..], maxSize);
    }
  }

  // ---- Capacity and unique keys ----

  ghost predicate WellKept(es: seq<Entry>, maxSize: nat) {
    DistinctKeys(es) && |es| <= maxSize
  }

  lemma SetKeepsCapacity(c: Cache, w: Workflow, now: int, ttl: int, maxSize: nat)
    requires maxSize >= 1 && WellKept(c.entries, maxSize)
    ensures WellKept(Set(c, w, now, ttl, maxSize).entries, maxSize)
  {
    var kept := Without(c.entries, w.id);
    WithoutMembers(c.entries, w.id);
    EvictKeeps(kept, maxSize);
    AppendFresh(Evict(kept, maxSize), Entry(w, now + ttl));
  }

  lemma GetKeepsCapacity(c: Cache, id: Id, now: int, maxSize: nat)
    requires WellKept(c.entries, maxSize)
    ensures WellKept(GetById(c, id, now).0.entries, maxSize)
  {
    WithoutMembers(c.entries, id);
    WithoutSize(c.entries, id);
    match Find(c.entries, id) {
      case None =>
      case Some(e) =>
        FindMember(c.entries, id);
        AppendFresh(Without(c.entries, id), e);
    }
  }

  /** Entries never exceed the capacity, whatever happens. */
  lemma {:induction false} CapacityHolds(events: seq<Event>, ttl: int, maxSize: nat)
    requires maxSize >= 1
    ensures WellKept(After(events, ttl, maxSize).entries, maxSize)
  {
    if events != [] {
      var init, last := events[..|events|-1], events[|events|-1];
      CapacityHolds(init, ttl, maxSize);
      var c := After(init, ttl, maxSize);
      match last.op {
        case SetOp(w) => SetKeepsCapacity(c, w, last.now, ttl, maxSize);
        case GetOp(id) => GetKeepsCapacity(c, id, last.now, maxSize);
        case PathOp(path) =>
          if path in c.index {
            GetKeepsCapacity(c, c.index[path], last.now, maxSize);
          }
        case InvalidateOp(id) =>
          WithoutMembers(c.entries, id);
        case ClearOp =>
      }
    }
  }

  // ---- The cache object ----

  class CacheObject {
    const maxSize: nat
    const ttl: int
    var entries: seq<Entry>
    var pathIndex: map<Id, Id>

    function State(): Cache
      reads this
    {
      Cache(entries, pathIndex)
    }

    constructor (maxSize: nat, ttl: int)
      ensures this.maxSize == maxSize && this.ttl == ttl && State() == EMPTY
    {
      this.maxSize, this.ttl := maxSize, ttl;
      entries, pathIndex := [], map[];
    }

    method RemovePathIndex(id: Id)
      modifies this`pathIndex
      ensures pathIndex == DropPath(old(State()), id)
    {
      var entry := Find(entries, id);
      if entry.Some? && entry.value.workflow.path.Some? {
        pathIndex := pathIndex - {entry.value.workflow.path.value};
      }
    }

    method RemoveEntry(id: Id)
      modifies this
      ensures State() == Remove(old(State()), id)
    {
      RemovePathIndex(id);
      entries := Without(entries, id);
    }

    method Lookup(id: Id, now: int) returns (found: Option<Workflow>)
      modifies this
      ensures (State(), found) == GetById(old(State()), id, now)
    {
      var entry := Find(entries, id);
      if entry.None? {
        return None;
      }
      if now >= entry.value.expiresAt {
        RemoveEntry(id);
        return None;
      }
      entries := Without(entries, id) + [entry.value];
      return Some(entry.value.workflow);
    }

    method LookupPath(path: Id, now: int) returns (found: Option<Workflow>)
      modifies this
      ensures (State(), found) == GetByPath(old(State()), path, now)
    {
      if path !in pathIndex {
        return None;
      }
      found := Lookup(pathIndex[path], now);
    }

    /**
     The eviction loop takes the oldest entry out first and only then looks for its path, in vain. With
     capacity zero it goes on until there is nothing to take out, and raises.
     */
    method Store(w: Workflow, now: int) returns (raised: bool)
      requires DistinctKeys(entries)
      modifies this
      ensures raised <==> maxSize == 0
      ensures maxSize >= 1 ==> State() == Set(old(State()), w, now, ttl, maxSize)
      ensures maxSize == 0 ==> State() == Cache([], DropPath(old(State()), w.id))
    {
      WithoutMembers(entries, w.id);
      if Find(entries, w.id).Some? {
        RemoveEntry(w.id);
      } else {
        WithoutMissing(entries, w.id);
      }
      ghost var cleared := State();
      while |entries| >= maxSize
        invariant pathIndex == cleared.index && DistinctKeys(entries)
        invariant maxSize >= 1 ==> Evict(entries, maxSize) == Evict(cleared.entries, maxSize)
        decreases |entries|
      {
        if entries == [] {
          return true;
        }
        var oldest := entries[0].workflow.id;
        EvictedIsGone(entries);
        entries := entries[1..];
        RemovePathIndex(oldest);
      }
      entries := entries + [Entry(w, now + ttl)];
      if w.path.Some? {
        pathIndex := pathIndex[w.path.value := w.id];
      }
      return false;
    }

    method Invalidate(id: Id)
      modifies this
      ensures State() == Remove(old(State()), id)
    {
      if Find(entries, id).Some? {
        RemoveEntry(id);
      } else {
        WithoutMissing(entries, id);
      }
    }

    method Clear()
      modifies this
      ensures State() == EMPTY
    {
      entries, pathIndex := [], map[];
    }
  }

  lemma {:induction false} WithoutMissing(es: seq<Entry>, id: Id)
    requires Find(es, id).None?
    ensures Without(es, id) == es
  {
    if es != [] {
      WithoutMissing(es[1..], id);
    }
  }

  lemma EvictedIsGone(es: seq<Entry>)
    requires DistinctKeys(es) && es != []
    ensures DistinctKeys(es[1..]) && Find(es[1..], es[0].workflow.id).None?
  {
    FindMember(es[1..], es[0].workflow.id);
  }
}
