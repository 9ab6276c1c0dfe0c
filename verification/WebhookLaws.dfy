/** Every write to the workflow table, told by the fields of its rows: who may write, when it succeeds, what it leaves. */
module WebhookLaws {
  import opened Common
  import opened WorkflowCache
  import CacheRecency
  import opened WebhookLookup

  // ---- One write ----

  /** A workflow is created if and only if its id and its path are free. */
  lemma CreateEffect(s: System, w: Workflow)
    requires DbOk(s.db)
    ensures var free := w.id !in s.db && (w.path.Some? ==> forall k :: k in s.db ==> s.db[k].path != w.path);
      NewDb(s, Create(w)) == if free then s.db[w.id := w] else s.db
  {
  }

  /** An update of the tenant's row with accepted steps succeeds if and only if no other row has the resulting path. */
  lemma UpdateEffect(s: System, id: Id, tenant: Id, edit: Edit)
    requires DbOk(s.db)
    ensures var d := NewDb(s, Update(id, tenant, edit));
      && NewDb(s, Commit(id, tenant, edit)) == d
      && if id in s.db && s.db[id].tenant == tenant && edit.stepsOk
            && var path := PathAfter(s.db[id].path, edit.webhook, edit.generated);
               (path.Some? ==> forall k :: k in s.db && k != id ==> s.db[k].path != path)
         then IsEdited(s.db, d, id, tenant, edit)
         else d == s.db
  {
  }

  /** An update that does not give the workflow a new path is never refused for its path. */
  lemma KeptPathIsFree(s: System, id: Id, tenant: Id, edit: Edit)
    requires DbOk(s.db) && id in s.db && s.db[id].tenant == tenant && edit.stepsOk
    requires edit.webhook == Some(true) ==> s.db[id].path != None
    ensures IsEdited(s.db, NewDb(s, Update(id, tenant, edit)), id, tenant, edit)
    ensures NewDb(s, Update(id, tenant, edit))[id].path == if edit.webhook == Some(false) then None else s.db[id].path
  {
    UpdateEffect(s, id, tenant, edit);
  }

  /** A deletion removes the tenant's own row and nothing else. */
  lemma DeleteEffect(s: System, id: Id, tenant: Id)
    requires DbOk(s.db)
    ensures var d := NewDb(s, Delete(id, tenant));
      && NewDb(s, CommitDelete(id, tenant)) == d
      && if id in s.db && s.db[id].tenant == tenant then IsWithout(s.db, d, id) else d == s.db
  {
  }

  // ---- Every history ----

  /** The tenant whose request the event is, if it writes to an existing row. */
  ghost function Writer(a: Act): Option<Id> {
    match a
    case Commit(_, tenant, _) => Some(tenant)
    case Update(_, tenant, _) => Some(tenant)
    case CommitDelete(_, tenant) => Some(tenant)
    case Delete(_, tenant) => Some(tenant)
    case _ => None
  }

  /** In every history, a row only changes or disappears by a request of its own tenant. */
  lemma OnlyOwnersWrite(acts: seq<Act>, i: nat, ttl: int, maxSize: nat, id: Id)
    requires maxSize >= 1 && i < |acts| && id in WebhookLookup.After(acts[..i], ttl, maxSize).db
    requires Writer(acts[i]) != Some(WebhookLookup.After(acts[..i], ttl, maxSize).db[id].tenant)
    ensures id in WebhookLookup.After(acts[..i + 1], ttl, maxSize).db
    ensures WebhookLookup.After(acts[..i + 1], ttl, maxSize).db[id] == WebhookLookup.After(acts[..i], ttl, maxSize).db[id]
  {
    hide PathAfter;
    var s, a := WebhookLookup.After(acts[..i], ttl, maxSize), acts[i];
    assert acts[..i + 1][..i] == acts[..i];
    assert WebhookLookup.After(acts[..i + 1], ttl, maxSize).db == NewDb(s, a);
    match a {
      case Create(w) => CreateEffect(s, w);
      case Commit(n, tenant, edit) => UpdateEffect(s, n, tenant, edit);
      case Update(n, tenant, edit) => UpdateEffect(s, n, tenant, edit);
      case CommitDelete(n, tenant) => DeleteEffect(s, n, tenant);
      case Delete(n, tenant) => DeleteEffect(s, n, tenant);
      case _ =>
    }
  }

  // ---- The cached answer ----

  /** A request is answered from the cache if and only if its path leads to an unexpired entry of that workflow. */
  lemma HitIff(s: System, path: Id, w: Workflow)
    requires DistinctKeys(s.cache.entries)
    ensures Hit(s, path) == Some(w) <==>
      && path in s.cache.index && s.cache.index[path] == w.id
      && exists e :: e in s.cache.entries && e.workflow == w && s.now < e.expiresAt
  {
    if path in s.cache.index {
      var id := s.cache.index[path];
      CacheRecency.AnswerIff(s.cache, id, s.now, w);
      FindMember(s.cache.entries, id);
    }
  }

  /** After a miss the row is answered from the cache, by its path and by its id, until its time is over. */
  lemma FillThenHit(s: System, path: Id, ttl: int, maxSize: nat, later: int)
    requires maxSize >= 1 && DbOk(s.db) && Hit(s, path) == None && LookupDb(s.db, path) != None
    ensures var c, row := NewCache(s, Receive(path), ttl, maxSize), LookupDb(s.db, path);
      && GetByPath(c, path, later).1 == (if later < s.now + ttl then row else None)
      && GetById(c, row.value.id, later).1 == (if later < s.now + ttl then row else None)
  {
    hide Evict, Without, DropPath, DbOk;
    var looked, row := GetByPath(s.cache, path, s.now).0, LookupDb(s.db, path).value;
    var kept := Without(looked.entries, row.id);
    WithoutMembers(looked.entries, row.id);
    EvictKeeps(kept, maxSize);
    FindLast(Evict(kept, maxSize), Entry(row, s.now + ttl));
  }

  lemma {:induction false} FindLast(es: seq<Entry>, e: Entry)
    requires forall x :: x in es ==> x.workflow.id != e.workflow.id
    ensures Find(es + [e], e.workflow.id) == Some(e)
  {
    if es != [] {
      assert (es + [e])[1..] == es[1..] + [e] && es[0] in es;
      FindLast(es[1..], e);
    }
  }

  /** A hit can be repeated at once. */
  lemma HitIsRepeatable(s: System, path: Id, ttl: int, maxSize: nat)
    requires maxSize >= 1 && DbOk(s.db) && DistinctKeys(s.cache.entries) && Hit(s, path) != None
    ensures GetByPath(NewCache(s, Receive(path), ttl, maxSize), path, s.now).1 == Hit(s, path)
  {
    var id := s.cache.index[path];
    var e := Find(s.cache.entries, id).value;
    FindMember(s.cache.entries, id);
    WithoutMembers(s.cache.entries, id);
    FindLast(Without(s.cache.entries, id), e);
  }
}
