/** What the cache guarantees over whole traces of operations. */
module CacheLaws {
  import opened Common
  import opened WorkflowCache

  // ---- LRU inclusion: a larger cache contains what a smaller one contains ----

  ghost predicate Sub(a: seq<Entry>, b: seq<Entry>) {
    if a == [] then true
    else if b == [] then false
    else if a[0] == b[0] then Sub(a[1..], b[1..])
    else Sub(a, b[1..])
  }

  lemma {:induction false} SubSize(a: seq<Entry>, b: seq<Entry>)
    requires Sub(a, b)
    ensures |a| <= |b|
    ensures forall e :: e in a ==> e in b
    decreases |b|
  {
    if a != [] {
      if a[0] == b[0] {
        SubSize(a[1..], b[1..]);
        assert forall e :: e in a ==> e == a[0] || e in a[1..];
      } else {
        SubSize(a, b[1..]);
      }
    }
  }

  lemma {:induction false} SubSkip(a: seq<Entry>, b: seq<Entry>, e: Entry)
    requires Sub(a, b)
    ensures Sub(a, [e] + b)
    decreases |a| + |b|, 1
  {
    assert ([e] + b)[1..] == b;
    if a != [] && a[0] == e {
      SubTail(a, b);
    }
  }

  lemma {:induction false} SubTail(a: seq<Entry>, b: seq<Entry>)
    requires Sub(a, b) && a != []
    ensures Sub(a[1..], b)
    decreases |a| + |b|, 0
  {
    if a[0] == b[0] {
      assert b == [b[0]] + b[1..];
      SubSkip(a[1..], b[1..], b[0]);
    } else {
      SubTail(a, b[1..]);
      assert b == [b[0]] + b[1..];
      SubSkip(a[1..], b[1..], b[0]);
    }
  }

  lemma SubTails(a: seq<Entry>, b: seq<Entry>)
    requires Sub(a, b) && a != []
    ensures b != [] && Sub(a[1..], b[1..])
  {
    if a[0] != b[0] {
      SubTail(a, b[1..]);
    }
  }

  lemma {:induction false} SubAppendBoth(a: seq<Entry>, b: seq<Entry>, e: Entry)
    requires Sub(a, b)
    ensures Sub(a + [e], b + [e])
    decreases |b|
  {
    if a == [] {
      SubLast(b, e);
      assert a + [e] == [e];
    } else {
      assert (b + [e])[1..] == b[1..] + [e];
      if a[0] == b[0] {
        assert (a + [e])[1..] == a[1..] + [e];
        SubAppendBoth(a[1..], b[1..], e);
      } else {
        SubAppendBoth(a, b[1..], e);
      }
    }
  }

  lemma {:induction false} SubLast(b: seq<Entry>, e: Entry)
    ensures Sub([e], b + [e])
  {
    if b != [] && b[0] != e {
      assert (b + [e])[1..] == b[1..] + [e];
      SubLast(b[1..], e);
    }
  }

  lemma {:induction false} SubAppendRight(a: seq<Entry>, b: seq<Entry>, e: Entry)
    requires Sub(a, b)
    ensures Sub(a, b + [e])
    decreases |b|
  {
    if a != [] {
      assert (b + [e])[1..] == b[1..] + [e];
      if a[0] == b[0] {
        SubAppendRight(a[1..], b[1..], e);
      } else {
        SubAppendRight(a, b[1..], e);
      }
    }
  }

  lemma {:induction false} SubWithout(a: seq<Entry>, b: seq<Entry>, id: Id)
    requires Sub(a, b)
    ensures Sub(Without(a, id), Without(b, id))
    decreases |b|
  {
    if a != [] {
      if a[0] == b[0] {
        SubWithout(a[1..], b[1..], id);
        if a[0].workflow.id != id {
          var x, y := Without(a, id), Without(b, id);
          assert x[1..] == Without(a[1..], id) && y[1..] == Without(b[1..], id);
        }
      } else {
        SubWithout(a, b[1..], id);
        if b[0].workflow.id != id {
          SubSkip(Without(a, id), Without(b[1..], id), b[0]);
        }
      }
    }
  }

  lemma SubFind(a: seq<Entry>, b: seq<Entry>, id: Id)
    requires Sub(a, b) && DistinctKeys(b) && Find(a, id).Some?
    ensures Find(b, id) == Find(a, id)
  {
    FindMember(a, id);
    SubSize(a, b);
    FindUnique(b, Find(a, id).value);
  }

  /** The smaller cache lags behind the larger one by no more than the difference of the capacities. */
  ghost predicate Included(a: seq<Entry>, b: seq<Entry>, n: nat, m: nat) {
    && WellKept(a, n) && WellKept(b, m) && n <= m
    && Sub(a, b) && |b| - |a| <= m - n
  }

  lemma WithoutKeepsIncluded(a: seq<Entry>, b: seq<Entry>, n: nat, m: nat, id: Id)
    requires Included(a, b, n, m)
    ensures Included(Without(a, id), Without(b, id), n, m)
  {
    SubWithout(a, b, id);
    WithoutMembers(a, id);
    WithoutMembers(b, id);
    WithoutSize(a, id);
    WithoutSize(b, id);
    if Find(a, id).Some? {
      SubFind(a, b, id);
    }
  }

  lemma EvictKeepsIncluded(a: seq<Entry>, b: seq<Entry>, n: nat, m: nat)
    requires Included(a, b, n, m) && n >= 1
    ensures var x, y := Evict(a, n), Evict(b, m);
      Sub(x, y) && |y| - |x| <= m - n
  {
    EvictKeeps(a, n);
    EvictKeeps(b, m);
    if |b| == m {
      SubTails(a, b);
    } else if |a| == n {
      SubTail(a, b);
    }
  }

  lemma SetKeepsIncluded(a: Cache, b: Cache, w: Workflow, now: int, ttl: int, n: nat, m: nat)
    requires 1 <= n && Included(a.entries, b.entries, n, m)
    ensures Included(Set(a, w, now, ttl, n).entries, Set(b, w, now, ttl, m).entries, n, m)
  {
    WithoutKeepsIncluded(a.entries, b.entries, n, m, w.id);
    EvictKeepsIncluded(Without(a.entries, w.id), Without(b.entries, w.id), n, m);
    SubAppendBoth(Evict(Without(a.entries, w.id), n), Evict(Without(b.entries, w.id), m), Entry(w, now + ttl));
    SetKeepsCapacity(a, w, now, ttl, n);
    SetKeepsCapacity(b, w, now, ttl, m);
  }

  /** A hit of the smaller cache is a hit of the larger one, with the same workflow. */
  lemma GetKeepsIncluded(a: Cache, b: Cache, id: Id, now: int, n: nat, m: nat)
    requires Included(a.entries, b.entries, n, m)
    ensures Included(GetById(a, id, now).0.entries, GetById(b, id, now).0.entries, n, m)
    ensures GetById(a, id, now).1.Some? ==> GetById(b, id, now).1 == GetById(a, id, now).1
  {
    WithoutKeepsIncluded(a.entries, b.entries, n, m, id);
    GetKeepsCapacity(a, id, now, n);
    GetKeepsCapacity(b, id, now, m);
    var x, y := Without(a.entries, id), Without(b.entries, id);
    WithoutSize(a.entries, id);
    WithoutSize(b.entries, id);
    if Find(a.entries, id).Some? {
      SubFind(a.entries, b.entries, id);
      SubAppendBoth(x, y, Find(a.entries, id).value);
    } else {
      WithoutMissing(a.entries, id);
      if Find(b.entries, id).Some? {
        SubAppendRight(x, y, Find(b.entries, id).value);
      }
    }
  }

  ghost predicate NoPathLookups(events: seq<Event>) {
    forall i :: 0 <= i < |events| ==> !events[i].op.PathOp?
  }

  /**
   Main theorem. Over every trace of stores, lookups by id, invalidations and clears, at any times, the
   entries of a cache are a subsequence of those of a larger cache, so whatever the smaller one answers,
   the larger one answers too.
   */
  lemma {:induction false} LargerCacheIncludesSmaller(events: seq<Event>, ttl: int, n: nat, m: nat)
    requires 1 <= n <= m && NoPathLookups(events)
    ensures Included(After(events, ttl, n).entries, After(events, ttl, m).entries, n, m)
    ensures forall id, now :: var hit := GetById(After(events, ttl, n), id, now).1;
      hit.Some? ==> GetById(After(events, ttl, m), id, now).1 == hit
  {
    if events != [] {
      var init, last := events[..|events|-1], events[|events|-1];
      LargerCacheIncludesSmaller(init, ttl, n, m);
      var a, b := After(init, ttl, n), After(init, ttl, m);
      match last.op {
        case SetOp(w) => SetKeepsIncluded(a, b, w, last.now, ttl, n, m);
        case GetOp(id) => GetKeepsIncluded(a, b, id, last.now, n, m);
        case PathOp(_) =>
        case InvalidateOp(id) => WithoutKeepsIncluded(a.entries, b.entries, n, m, id);
        case ClearOp =>
      }
    }
    forall id, now ensures var hit := GetById(After(events, ttl, n), id, now).1;
      hit.Some? ==> GetById(After(events, ttl, m), id, now).1 == hit
    {
      GetKeepsIncluded(After(events, ttl, n), After(events, ttl, m), id, now, n, m);
    }
  }

  // ---- Path lookup equals a scan, when no workflow changes its path ----

  /** The answer a scan of the unexpired entries would give. */
  function Scan(es: seq<Entry>, path: Id, now: int): Option<Workflow> {
    if es == [] then None
    else if es[0].workflow.path == Some(path) && now < es[0].expiresAt then Some(es[0].workflow)
    else Scan(es[1..], path, now)
  }

  /** Which path each workflow has for good; each path belongs to one workflow. */
  type Ownership = Id -> Option<Id>

  ghost predicate OneOwner(own: Ownership) {
    forall a, b :: own(a).Some? && own(a) == own(b) ==> a == b
  }

  ghost predicate StoresOwnPaths(events: seq<Event>, own: Ownership) {
    forall i :: 0 <= i < |events| && events[i].op.SetOp? ==> events[i].op.w.path == own(events[i].op.w.id)
  }

  /** Entries have their own paths, and are all in the index; index keys left behind point to their owner. */
  ghost predicate Indexed(c: Cache, own: Ownership) {
    && DistinctKeys(c.entries)
    && (forall e :: e in c.entries ==> e.workflow.path == own(e.workflow.id))
    && (forall p :: p in c.index ==> own(c.index[p]) == Some(p))
    && (forall e :: e in c.entries && e.workflow.path.Some? ==>
          e.workflow.path.value in c.index && c.index[e.workflow.path.value] == e.workflow.id)
  }

  lemma RemoveKeepsIndexed(c: Cache, id: Id, own: Ownership)
    requires OneOwner(own) && Indexed(c, own)
    ensures Indexed(Remove(c, id), own)
  {
    FindMember(c.entries, id);
    WithoutMembers(c.entries, id);
  }

  lemma SetKeepsIndexed(c: Cache, w: Workflow, now: int, ttl: int, maxSize: nat, own: Ownership)
    requires maxSize >= 1 && OneOwner(own) && Indexed(c, own) && w.path == own(w.id)
    ensures Indexed(Set(c, w, now, ttl, maxSize), own)
  {
    var cleared := Remove(c, w.id);
    RemoveKeepsIndexed(c, w.id, own);
    WithoutMembers(c.entries, w.id);
    EvictKeeps(cleared.entries, maxSize);
    var kept, e := Evict(cleared.entries, maxSize), Entry(w, now + ttl);
    AppendFresh(kept, e);
    assert forall x :: x in kept + [e] <==> x in kept || x == e;
  }

  lemma GetKeepsIndexed(c: Cache, id: Id, now: int, own: Ownership)
    requires OneOwner(own) && Indexed(c, own)
    ensures Indexed(GetById(c, id, now).0, own)
  {
    RemoveKeepsIndexed(c, id, own);
    WithoutMembers(c.entries, id);
    match Find(c.entries, id) {
      case None =>
      case Some(e) =>
        FindMember(c.entries, id);
        var kept := Without(c.entries, id);
        AppendFresh(kept, e);
        assert forall x :: x in kept + [e] <==> x in kept || x == e;
    }
  }

  lemma {:induction false} StaysIndexed(events: seq<Event>, ttl: int, maxSize: nat, own: Ownership)
    requires maxSize >= 1 && OneOwner(own) && StoresOwnPaths(events, own)
    ensures Indexed(After(events, ttl, maxSize), own)
  {
    if events != [] {
      var init, last := events[..|events|-1], events[|events|-1];
      StaysIndexed(init, ttl, maxSize, own);
      var c := After(init, ttl, maxSize);
      match last.op {
        case SetOp(w) => SetKeepsIndexed(c, w, last.now, ttl, maxSize, own);
        case GetOp(id) => GetKeepsIndexed(c, id, last.now, own);
        case PathOp(path) =>
          if path in c.index {
            GetKeepsIndexed(c, c.index[path], last.now, own);
          }
        case InvalidateOp(id) => RemoveKeepsIndexed(c, id, own);
        case ClearOp =>
      }
    }
  }

  lemma {:induction false} ScanMember(es: seq<Entry>, path: Id, now: int)
    ensures Scan(es, path, now).Some? <==> exists e :: e in es && e.workflow.path == Some(path) && now < e.expiresAt
    ensures Scan(es, path, now).Some? ==>
      exists e :: e in es && e.workflow == Scan(es, path, now).value && e.workflow.path == Some(path) && now < e.expiresAt
  {
    if es != [] {
      ScanMember(es[1..], path, now);
      assert forall e :: e in es <==> e == es[0] || e in es[1..];
    }
  }

  lemma LookupIsScan(c: Cache, path: Id, now: int, own: Ownership)
    requires OneOwner(own) && Indexed(c, own)
    ensures GetByPath(c, path, now).1 == Scan(c.entries, path, now)
  {
    ScanMember(c.entries, path, now);
    if path in c.index {
      var id := c.index[path];
      FindMember(c.entries, id);
      if Scan(c.entries, path, now).Some? {
        var e :| e in c.entries && e.workflow == Scan(c.entries, path, now).value && e.workflow.path == Some(path) && now < e.expiresAt;
        FindUnique(c.entries, e);
        assert own(e.workflow.id) == Some(path) == own(id);
      }
    }
  }

  /**
   Main theorem. Evictions leave index keys behind, but as long as each path belongs to one workflow for
   good, path lookup answers exactly what a scan of the unexpired entries would, at any time.
   */
  lemma PathLookupIsScan(events: seq<Event>, ttl: int, maxSize: nat, own: Ownership, path: Id, now: int)
    requires maxSize >= 1 && OneOwner(own) && StoresOwnPaths(events, own)
    ensures var c := After(events, ttl, maxSize);
      GetByPath(c, path, now).1 == Scan(c.entries, path, now)
  {
    StaysIndexed(events, ttl, maxSize, own);
    LookupIsScan(After(events, ttl, maxSize), path, now, own);
  }

  // ---- LRU inclusion with lookups by path ----

  /** The path lookup of the smaller cache finds an unexpired entry. */
  predicate Answers(c: Cache, path: Id, now: int) {
    path in c.index && Find(c.entries, c.index[path]).Some? && now < Find(c.entries, c.index[path]).value.expiresAt
  }

  /**
   Exactly when a path lookup of the smaller of two caches is answered alike by the larger one: its index
   must lead the same way. The condition speaks of the caches before the lookup.
   */
  lemma PathHitIncludedIff(a: Cache, b: Cache, path: Id, now: int, n: nat, m: nat)
    requires Included(a.entries, b.entries, n, m)
    ensures var x, y := GetByPath(a, path, now).1, GetByPath(b, path, now).1;
      (x.Some? ==> y == x) <==> (Answers(a, path, now) ==> path in b.index && b.index[path] == a.index[path])
  {
    if Answers(a, path, now) {
      var id := a.index[path];
      SubFind(a.entries, b.entries, id);
      FindMember(a.entries, id);
      if path in b.index {
        FindMember(b.entries, b.index[path]);
      }
    }
  }

  lemma PathKeepsIncluded(a: Cache, b: Cache, path: Id, now: int, n: nat, m: nat, own: Ownership)
    requires OneOwner(own) && Indexed(a, own) && Indexed(b, own) && Included(a.entries, b.entries, n, m)
    ensures Included(GetByPath(a, path, now).0.entries, GetByPath(b, path, now).0.entries, n, m)
    ensures GetByPath(a, path, now).1.Some? ==> GetByPath(b, path, now).1 == GetByPath(a, path, now).1
  {
    if path in a.index {
      GetOwner(a, path, a.index[path], now, own);
      GetOwner(b, path, a.index[path], now, own);
      GetKeepsIncluded(a, b, a.index[path], now, n, m);
    } else if path in b.index {
      GetOwner(a, path, b.index[path], now, own);
      GetOwner(b, path, b.index[path], now, own);
      GetKeepsIncluded(a, b, b.index[path], now, n, m);
    }
  }

  /** When workflows keep their paths, a lookup by path is the lookup of the path's owner by id. */
  lemma GetOwner(c: Cache, path: Id, owner: Id, now: int, own: Ownership)
    requires OneOwner(own) && Indexed(c, own) && own(owner) == Some(path)
    ensures GetByPath(c, path, now) == GetById(c, owner, now)
  {
    FindMember(c.entries, owner);
  }

  /**
   Main theorem: when workflows keep their paths, inclusion also holds over traces with lookups by path,
   and whatever path the smaller cache answers for, the larger one answers alike.
   */
  lemma {:induction false} LargerCacheIncludesSmallerByPath(events: seq<Event>, ttl: int, n: nat, m: nat, own: Ownership)
    requires 1 <= n <= m && OneOwner(own) && StoresOwnPaths(events, own)
    ensures Included(After(events, ttl, n).entries, After(events, ttl, m).entries, n, m)
    ensures forall path, now :: var hit := GetByPath(After(events, ttl, n), path, now).1;
      hit.Some? ==> GetByPath(After(events, ttl, m), path, now).1 == hit
  {
    hide Included, Indexed, GetByPath;
    InclusionByPath(events, ttl, n, m, own);
    StaysIndexed(events, ttl, n, own);
    StaysIndexed(events, ttl, m, own);
    forall path, now ensures var hit := GetByPath(After(events, ttl, n), path, now).1;
      hit.Some? ==> GetByPath(After(events, ttl, m), path, now).1 == hit
    {
      PathKeepsIncluded(After(events, ttl, n), After(events, ttl, m), path, now, n, m, own);
    }
  }

  lemma {:induction false} InclusionByPath(events: seq<Event>, ttl: int, n: nat, m: nat, own: Ownership)
    requires 1 <= n <= m && OneOwner(own) && StoresOwnPaths(events, own)
    ensures Included(After(events, ttl, n).entries, After(events, ttl, m).entries, n, m)
  {
    if events != [] {
      var init, last := events[..|events|-1], events[|events|-1];
      InclusionByPath(init, ttl, n, m, own);
      StaysIndexed(init, ttl, n, own);
      StaysIndexed(init, ttl, m, own);
      ApplyKeepsIncluded(After(init, ttl, n), After(init, ttl, m), last, ttl, n, m, own);
    }
  }

  lemma ApplyKeepsIncluded(a: Cache, b: Cache, ev: Event, ttl: int, n: nat, m: nat, own: Ownership)
    requires 1 <= n <= m && OneOwner(own) && Indexed(a, own) && Indexed(b, own) && Included(a.entries, b.entries, n, m)
    ensures Included(Apply(a, ev.op, ev.now, ttl, n).entries, Apply(b, ev.op, ev.now, ttl, m).entries, n, m)
  {
    match ev.op {
      case SetOp(w) => SetKeepsIncluded(a, b, w, ev.now, ttl, n, m);
      case GetOp(id) => GetKeepsIncluded(a, b, id, ev.now, n, m);
      case PathOp(path) => PathKeepsIncluded(a, b, path, ev.now, n, m, own);
      case InvalidateOp(id) => WithoutKeepsIncluded(a.entries, b.entries, n, m, id);
      case ClearOp =>
    }
  }

  // ---- Exactly when a store leaves an index key behind ----

  /** The index key belongs to a cached workflow that has that path. */
  predicate SoundKey(c: Cache, p: Id)
    requires p in c.index
  {
    var found := Find(c.entries, c.index[p]);
    found.Some? && found.value.workflow.path == Some(p)
  }

  ghost predicate IndexSound(c: Cache) {
    forall p :: p in c.index ==> SoundKey(c, p)
  }

  /** The entry that a store of w pushes out, if any. */
  function Victim(c: Cache, w: Workflow, maxSize: nat): Option<Entry> {
    var kept := Without(c.entries, w.id);
    if |kept| >= maxSize && kept != [] then Some(kept[0]) else None
  }

  /** The entry pushed out owns an index key that w does not take over. */
  predicate LeavesKey(c: Cache, w: Workflow, maxSize: nat) {
    match Victim(c, w, maxSize)
    case None => false
    case Some(e) =>
      && e.workflow.path.Some? && e.workflow.path != w.path
      && e.workflow.path.value in DropPath(c, w.id)
      && DropPath(c, w.id)[e.workflow.path.value] == e.workflow.id
  }

  lemma RemoveKeepsKey(c: Cache, id: Id, p: Id)
    requires DistinctKeys(c.entries) && p in Remove(c, id).index
    ensures p in c.index && Remove(c, id).index[p] == c.index[p]
    ensures SoundKey(c, p) ==> SoundKey(Remove(c, id), p)
  {
    WithoutMembers(c.entries, id);
    if SoundKey(c, p) {
      FindMember(c.entries, c.index[p]);
      FindUnique(Remove(c, id).entries, Find(c.entries, c.index[p]).value);
    }
  }

  lemma RemoveKeepsSound(c: Cache, id: Id)
    requires DistinctKeys(c.entries) && IndexSound(c)
    ensures IndexSound(Remove(c, id))
  {
    forall p | p in Remove(c, id).index ensures SoundKey(Remove(c, id), p) {
      RemoveKeepsKey(c, id, p);
    }
  }

  lemma GetKeepsKey(c: Cache, id: Id, now: int, p: Id)
    requires DistinctKeys(c.entries) && p in GetById(c, id, now).0.index
    ensures var t := GetById(c, id, now).0;
      p in c.index && t.index[p] == c.index[p] && (SoundKey(c, p) ==> SoundKey(t, p))
  {
    match Find(c.entries, id) {
      case None =>
      case Some(e) =>
        if now >= e.expiresAt {
          RemoveKeepsKey(c, id, p);
        } else if SoundKey(c, p) {
          FindMember(c.entries, id);
          WithoutMembers(c.entries, id);
          AppendFresh(Without(c.entries, id), e);
          FindMember(c.entries, c.index[p]);
          FindUnique(Without(c.entries, id) + [e], Find(c.entries, c.index[p]).value);
        }
    }
  }

  lemma GetKeepsSound(c: Cache, id: Id, now: int)
    requires DistinctKeys(c.entries) && IndexSound(c)
    ensures IndexSound(GetById(c, id, now).0)
  {
    var t := GetById(c, id, now).0;
    forall p | p in t.index ensures SoundKey(t, p) {
      GetKeepsKey(c, id, now, p);
    }
  }

  /** The store pushes out the owner of the index key p and leaves the key behind. */
  predicate OrphansKey(c: Cache, w: Workflow, maxSize: nat, p: Id) {
    LeavesKey(c, w, maxSize) && Victim(c, w, maxSize).value.workflow.path == Some(p)
  }

  /** After a store, the key for w's own path is right, and another key that was right stays so unless it is orphaned. */
  lemma KeyAfterSet(c: Cache, w: Workflow, now: int, ttl: int, maxSize: nat, p: Id)
    requires maxSize >= 1 && WellKept(c.entries, maxSize)
    requires p in Set(c, w, now, ttl, maxSize).index
    ensures var s := Set(c, w, now, ttl, maxSize);
      if w.path == Some(p) then SoundKey(s, p) && !OrphansKey(c, w, maxSize, p)
      else
        && p in c.index && s.index[p] == c.index[p]
        && (SoundKey(c, p) ==> (SoundKey(s, p) <==> !OrphansKey(c, w, maxSize, p)))
  {
    var s, cleared := Set(c, w, now, ttl, maxSize), Remove(c, w.id);
    var e := Entry(w, now + ttl);
    WithoutMembers(c.entries, w.id);
    EvictKeeps(cleared.entries, maxSize);
    SetKeepsCapacity(c, w, now, ttl, maxSize);
    assert |cleared.entries| <= maxSize;
    if w.path == Some(p) {
      FindUnique(s.entries, e);
    } else {
      RemoveKeepsKey(c, w.id, p);
      if SoundKey(c, p) {
        SoundAfterSet(c, w, now, ttl, maxSize, p);
      }
    }
  }

  lemma SoundAfterSet(c: Cache, w: Workflow, now: int, ttl: int, maxSize: nat, p: Id)
    requires maxSize >= 1 && WellKept(c.entries, maxSize) && w.path != Some(p)
    requires p in Remove(c, w.id).index && SoundKey(Remove(c, w.id), p)
    ensures var s := Set(c, w, now, ttl, maxSize);
      p in s.index && (SoundKey(s, p) <==> !OrphansKey(c, w, maxSize, p))
  {
    var s, cleared := Set(c, w, now, ttl, maxSize), Remove(c, w.id);
    var e := Entry(w, now + ttl);
    WithoutMembers(c.entries, w.id);
    EvictKeeps(cleared.entries, maxSize);
    SetKeepsCapacity(c, w, now, ttl, maxSize);
    assert |cleared.entries| <= maxSize;
    var x := Find(cleared.entries, s.index[p]).value;
    FindMember(cleared.entries, s.index[p]);
    if Victim(c, w, maxSize) == Some(x) {
      NotFoundAfterEviction(cleared.entries, e);
    } else {
      assert x in Evict(cleared.entries, maxSize);
      assert x in s.entries;
      FindUnique(s.entries, x);
      if Victim(c, w, maxSize).Some? {
        FindUnique(cleared.entries, Victim(c, w, maxSize).value);
      }
    }
  }

  lemma NotFoundAfterEviction(es: seq<Entry>, e: Entry)
    requires DistinctKeys(es) && es != [] && forall x :: x in es ==> x.workflow.id != e.workflow.id
    ensures Find(es[1..] + [e], es[0].workflow.id).None?
  {
    FindMember(es[1..] + [e], es[0].workflow.id);
    assert es[0] in es;
    assert forall x :: x in es[1..] + [e] <==> x in es[1..] || x == e;
  }

  /**
   A store keeps the index exact if and only if it does not push out an entry that owns an index key
   which the new workflow does not take over: the eviction forgets to delete that key.
   */
  lemma StoreKeepsIndexIff(c: Cache, w: Workflow, now: int, ttl: int, maxSize: nat)
    requires maxSize >= 1 && WellKept(c.entries, maxSize) && IndexSound(c)
    ensures IndexSound(Set(c, w, now, ttl, maxSize)) <==> !LeavesKey(c, w, maxSize)
  {
    var s := Set(c, w, now, ttl, maxSize);
    forall p | p in s.index ensures SoundKey(s, p) <==> !OrphansKey(c, w, maxSize, p) {
      KeyAfterSet(c, w, now, ttl, maxSize, p);
    }
    if LeavesKey(c, w, maxSize) {
      assert Victim(c, w, maxSize).value.workflow.path.value in s.index;
    }
  }

  /** With an exact index, a path never leads to a workflow with another path. */
  lemma ExactIndexAnswersTruly(c: Cache, path: Id, now: int)
    requires DistinctKeys(c.entries) && IndexSound(c)
    ensures var found := GetByPath(c, path, now).1;
      found.Some? ==> found.value.path == Some(path)
  {
  }

  /** No store in the trace leaves a key behind; in particular there may be no eviction at all. */
  ghost predicate LeavesNoKeys(events: seq<Event>, ttl: int, maxSize: nat)
    requires maxSize >= 1
  {
    forall i :: 0 <= i < |events| && events[i].op.SetOp? ==> !LeavesKey(After(events[..i], ttl, maxSize), events[i].op.w, maxSize)
  }

  lemma ApplyKeepsSound(c: Cache, ev: Event, ttl: int, maxSize: nat)
    requires maxSize >= 1 && WellKept(c.entries, maxSize) && IndexSound(c)
    requires ev.op.SetOp? ==> !LeavesKey(c, ev.op.w, maxSize)
    ensures IndexSound(Apply(c, ev.op, ev.now, ttl, maxSize))
  {
    match ev.op {
      case SetOp(w) => StoreKeepsIndexIff(c, w, ev.now, ttl, maxSize);
      case GetOp(id) => GetKeepsSound(c, id, ev.now);
      case PathOp(path) =>
        if path in c.index {
          GetKeepsSound(c, c.index[path], ev.now);
        }
      case InvalidateOp(id) => RemoveKeepsSound(c, id);
      case ClearOp =>
    }
  }

  lemma {:induction false} StaysSound(events: seq<Event>, ttl: int, maxSize: nat)
    requires maxSize >= 1 && LeavesNoKeys(events, ttl, maxSize)
    ensures IndexSound(After(events, ttl, maxSize))
  {
    if events != [] {
      var init, last := events[..|events|-1], events[|events|-1];
      forall i | 0 <= i < |init| && init[i].op.SetOp? ensures !LeavesKey(After(init[..i], ttl, maxSize), init[i].op.w, maxSize) {
        assert init[..i] == events[..i];
      }
      StaysSound(init, ttl, maxSize);
      CapacityHolds(init, ttl, maxSize);
      ApplyKeepsSound(After(init, ttl, maxSize), last, ttl, maxSize);
    }
  }

  /**
   The general failure: in a cache of one entry, workflow 1 is stored under path 10, pushed out by
   workflow 2, and stored again under path 30. Path 10 still answers with workflow 1.
   */
  lemma StalePathAnswers(ttl: int)
    requires ttl > 0
    ensures var a, b, c := Workflow(1, 0, Some(10), 0), Workflow(2, 0, Some(20), 0), Workflow(1, 0, Some(30), 0);
      var events := [Event(SetOp(a), 0), Event(SetOp(b), 0), Event(SetOp(c), 0)];
      GetByPath(After(events, ttl, 1), 10, 0).1 == Some(c)
  {
    var a, b, c := Workflow(1, 0, Some(10), 0), Workflow(2, 0, Some(20), 0), Workflow(1, 0, Some(30), 0);
    var e1, e2, e3 := Event(SetOp(a), 0), Event(SetOp(b), 0), Event(SetOp(c), 0);
    var ea, eb, ec := Entry(a, ttl), Entry(b, ttl), Entry(c, ttl);
    var events := [e1, e2, e3];
    assert events[..2] == [e1, e2] && [e1, e2][..1] == [e1] && [e1][..0] == [];
    assert After([e1], ttl, 1) == Cache([ea], map[10 := 1]);
    assert Without([ea], 2) == [ea];
    assert Evict([ea], 1) == [];
    assert After([e1, e2], ttl, 1) == Set(After([e1], ttl, 1), b, 0, ttl, 1);
    assert Find([ea], 2) == Find([ea][1..], 2) == None;
    assert Remove(Cache([ea], map[10 := 1]), 2) == Cache([ea], map[10 := 1]);
    assert After([e1, e2], ttl, 1) == Cache([eb], map[10 := 1, 20 := 2]);
    assert After(events, ttl, 1) == Set(After([e1, e2], ttl, 1), c, 0, ttl, 1);
    assert Find([eb], 1) == Find([eb][1..], 1) == None;
    assert Remove(Cache([eb], map[10 := 1, 20 := 2]), 1) == Cache([eb], map[10 := 1, 20 := 2]);
    assert Without([eb], 1) == [eb];
    assert Evict([eb], 1) == [];
    assert After(events, ttl, 1) == Cache([ec], map[10 := 1, 20 := 2, 30 := 1]);
  }

  /** Storing a new workflow where there is room for it. */
  lemma StoresWithRoom(c: Cache, w: Workflow, p: Id, now: int, ttl: int, maxSize: nat)
    requires Find(c.entries, w.id).None? && |c.entries| < maxSize && w.path == Some(p)
    ensures Set(c, w, now, ttl, maxSize) == Cache(c.entries + [Entry(w, now + ttl)], c.index[p := w.id])
  {
    WithoutMissing(c.entries, w.id);
  }

  lemma TwoStored(ttl: int)
    ensures var a, b := Workflow(1, 0, Some(10), 0), Workflow(2, 0, Some(20), 0);
      After([Event(SetOp(a), 0), Event(SetOp(b), 0)], ttl, 2) ==
        Cache([Entry(a, ttl), Entry(b, ttl)], map[10 := 1, 20 := 2])
  {
    var a, b := Workflow(1, 0, Some(10), 0), Workflow(2, 0, Some(20), 0);
    var e1, e2 := Event(SetOp(a), 0), Event(SetOp(b), 0);
    assert [e1, e2][..1] == [e1] && [e1][..0] == [];
    StoresWithRoom(EMPTY, a, 10, 0, ttl, 2);
    assert After([e1], ttl, 2) == Cache([Entry(a, ttl)], map[10 := 1]);
    assert Find([Entry(a, ttl)], 2) == Find([Entry(a, ttl)][1..], 2) == None;
    StoresWithRoom(Cache([Entry(a, ttl)], map[10 := 1]), b, 20, 0, ttl, 2);
  }

  /**
   Inclusion of path lookups fails without kept paths: after the same three stores a cache of two entries,
   which had no need to evict, has dropped the key 10 and misses where the smaller one answers.
   */
  lemma SmallerAnswersLargerMisses(ttl: int)
    requires ttl > 0
    ensures var a, b, c := Workflow(1, 0, Some(10), 0), Workflow(2, 0, Some(20), 0), Workflow(1, 0, Some(30), 0);
      var events := [Event(SetOp(a), 0), Event(SetOp(b), 0), Event(SetOp(c), 0)];
      && GetByPath(After(events, ttl, 1), 10, 0).1 == Some(c)
      && GetByPath(After(events, ttl, 2), 10, 0).1 == None
  {
    var a, b, c := Workflow(1, 0, Some(10), 0), Workflow(2, 0, Some(20), 0), Workflow(1, 0, Some(30), 0);
    var events := [Event(SetOp(a), 0), Event(SetOp(b), 0), Event(SetOp(c), 0)];
    StalePathAnswers(ttl);
    TwoStored(ttl);
    assert events[..2] == [Event(SetOp(a), 0), Event(SetOp(b), 0)];
    KeyOfReplaced(After(events[..2], ttl, 2), Entry(a, ttl), c, 10, ttl);
  }

  /** A store drops the key of the entry that it replaces. */
  lemma KeyOfReplaced(c: Cache, was: Entry, w: Workflow, p: Id, ttl: int)
    requires Find(c.entries, w.id) == Some(was) && was.workflow.path == Some(p) && w.path != Some(p)
    ensures p !in Set(c, w, 0, ttl, 2).index
  {
  }
}
