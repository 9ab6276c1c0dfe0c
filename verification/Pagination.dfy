/**
 Cursor pagination of the execution and workflow lists: rows ordered by creation time and then id, one
 row more than the limit read to learn whether there is a next page, and a cursor naming the last row.
 */
module Pagination {
  import opened Common

  /** The columns that the lists filter on. */
  datatype Data =
    | ExecutionData(tenant: Id, status: string, workflow: Id)
    | WorkflowData(tenant: Id, triggerType: string, isActive: bool)

  datatype Row = Row(createdAt: int, id: Id, data: Data)

  datatype Cursor = Cursor(createdAt: int, id: Id)

  datatype Page = Page(rows: seq<Row>, next: Option<Cursor>)

  // ---- The query ----

  predicate Precedes(a: Row, b: Row) {
    a.createdAt < b.createdAt || (a.createdAt == b.createdAt && a.id < b.id)
  }

  function CursorOf(r: Row): Cursor {
    Cursor(r.createdAt, r.id)
  }

  /** The condition that a cursor adds to the query. */
  predicate Follows(r: Row, cursor: Option<Cursor>) {
    Beyond(CursorOf(r), cursor)
  }

  predicate Beyond(c: Cursor, cursor: Option<Cursor>) {
    cursor.Some? ==>
      && c.createdAt >= cursor.value.createdAt
      && !(c.createdAt == cursor.value.createdAt && c.id <= cursor.value.id)
  }

  function Select(table: seq<Row>, matches: Row -> bool, cursor: Option<Cursor>): seq<Row> {
    if table == [] then []
    else (if matches(table[0]) && Follows(table[0], cursor) then [table[0]] else []) + Select(table[1..], matches, cursor)
  }

  function Insert(x: Row, s: seq<Row>): seq<Row> {
    if s == [] || Precedes(x, s[0]) then [x] + s else [s[0]] + Insert(x, s[1..])
  }

  function Sort(s: seq<Row>): seq<Row> {
    if s == [] then [] else Insert(s[0], Sort(s[1..]))
  }

  function ListPage(table: seq<Row>, matches: Row -> bool, cursor: Option<Cursor>, limit: nat): Page {
    var ordered := Sort(Select(table, matches, cursor));
    var rows := if |ordered| <= limit + 1 then ordered else ordered[..limit + 1];
    var page := if |rows| <= limit then rows else rows[..limit];
    Page(page, if |rows| > limit && page != [] then Some(CursorOf(page[|page|-1])) else None)
  }

  // ---- The two lists ----

  datatype ExecutionFilter = ExecutionFilter(
    status: Option<string>, workflow: Option<Id>, createdAfter: Option<int>, createdBefore: Option<int>)

  predicate WantedExecution(r: Row, tenant: Id, f: ExecutionFilter) {
    && r.data.ExecutionData? && r.data.tenant == tenant
    && (f.status.Some? ==> r.data.status == f.status.value)
    && (f.workflow.Some? ==> r.data.workflow == f.workflow.value)
    && (f.createdAfter.Some? ==> r.createdAt >= f.createdAfter.value)
    && (f.createdBefore.Some? ==> r.createdAt <= f.createdBefore.value)
  }

  function ListExecutions(table: seq<Row>, tenant: Id, f: ExecutionFilter, cursor: Option<Cursor>,
      limit: nat): Page {
    ListPage(table, (r: Row) => WantedExecution(r, tenant, f), cursor, limit)
  }

  datatype WorkflowFilter = WorkflowFilter(triggerType: Option<string>, isActive: Option<bool>)

  predicate WantedWorkflow(r: Row, tenant: Id, f: WorkflowFilter) {
    && r.data.WorkflowData? && r.data.tenant == tenant
    && (f.triggerType.Some? ==> r.data.triggerType == f.triggerType.value)
    && (f.isActive.Some? ==> r.data.isActive == f.isActive.value)
  }

  function ListWorkflows(table: seq<Row>, tenant: Id, f: WorkflowFilter, cursor: Option<Cursor>,
      limit: nat): Page {
    ListPage(table, (r: Row) => WantedWorkflow(r, tenant, f), cursor, limit)
  }

  // ---- Ordered lists of rows ----

  ghost predicate UniqueIds(s: seq<Row>) {
    forall i, j :: 0 <= i < j < |s| ==> s[i].id != s[j].id
  }

  ghost predicate Increasing(s: seq<Row>) {
    forall i, j :: 0 <= i < j < |s| ==> Precedes(s[i], s[j])
  }

  lemma HeadApart(x: Row, t: seq<Row>)
    requires UniqueIds(t) && forall r :: r in t ==> r.id != x.id
    ensures UniqueIds([x] + t)
  {
    var s := [x] + t;
    forall i, j | 0 <= i < j < |s| ensures s[i].id != s[j].id {
      assert s[j] == t[j - 1] && t[j - 1] in t;
    }
  }

  lemma TailApart(x: Row, t: seq<Row>)
    requires UniqueIds([x] + t)
    ensures UniqueIds(t) && forall r :: r in t ==> r.id != x.id
  {
    var s := [x] + t;
    assert s[1..] == t && s[0] == x;
    forall k | 0 <= k < |t| ensures t[k] == s[k + 1] {
    }
  }

  lemma HeadFirst(x: Row, t: seq<Row>)
    requires Increasing(t) && forall r :: r in t ==> Precedes(x, r)
    ensures Increasing([x] + t)
  {
    var s := [x] + t;
    forall i, j | 0 <= i < j < |s| ensures Precedes(s[i], s[j]) {
      assert s[j] == t[j - 1] && t[j - 1] in t;
    }
  }

  lemma TailAfter(x: Row, t: seq<Row>)
    requires Increasing([x] + t)
    ensures Increasing(t) && forall r :: r in t ==> Precedes(x, r)
  {
    var s := [x] + t;
    assert s[1..] == t && s[0] == x;
    forall k | 0 <= k < |t| ensures t[k] == s[k + 1] {
    }
  }

  lemma {:induction false} SelectMembers(table: seq<Row>, matches: Row -> bool, cursor: Option<Cursor>)
    ensures forall r :: r in Select(table, matches, cursor) <==> r in table && matches(r) && Follows(r, cursor)
    ensures UniqueIds(table) ==> UniqueIds(Select(table, matches, cursor))
  {
    if table != [] {
      assert table == [table[0]] + table[1..];
      SelectMembers(table[1..], matches, cursor);
      if UniqueIds(table) {
        TailApart(table[0], table[1..]);
        HeadApart(table[0], Select(table[1..], matches, cursor));
      }
    }
  }

  lemma {:induction false} InsertKeepsOrder(x: Row, s: seq<Row>)
    requires Increasing(s) && forall r :: r in s ==> r.id != x.id
    ensures Increasing(Insert(x, s))
    ensures forall r :: r in Insert(x, s) <==> r == x || r in s
  {
    if s == [] || Precedes(x, s[0]) {
      HeadFirst(x, s);
    } else {
      assert s == [s[0]] + s[1..] && s[0] in s;
      TailAfter(s[0], s[1..]);
      InsertKeepsOrder(x, s[1..]);
      HeadFirst(s[0], Insert(x, s[1..]));
    }
  }

  lemma {:induction false} SortOrders(s: seq<Row>)
    requires UniqueIds(s)
    ensures Increasing(Sort(s))
    ensures forall r :: r in Sort(s) <==> r in s
  {
    if s != [] {
      assert s == [s[0]] + s[1..];
      TailApart(s[0], s[1..]);
      SortOrders(s[1..]);
      InsertKeepsOrder(s[0], Sort(s[1..]));
    }
  }

  lemma LeastIsFirst(a: seq<Row>, r: Row)
    requires Increasing(a) && r in a
    ensures r == a[0] || Precedes(a[0], r)
  {
    var k :| 0 <= k < |a| && a[k] == r;
  }

  lemma SameFirst(a: seq<Row>, b: seq<Row>)
    requires Increasing(a) && Increasing(b) && a != [] && b != [] && forall r :: r in a <==> r in b
    ensures a[0] == b[0]
  {
    hide Increasing;
    assert a[0] in b && b[0] in a;
    LeastIsFirst(b, a[0]);
    LeastIsFirst(a, b[0]);
  }

  lemma {:induction false} OneOrder(a: seq<Row>, b: seq<Row>)
    requires Increasing(a) && Increasing(b) && forall r :: r in a <==> r in b
    ensures a == b
  {
    hide Increasing;
    if a == [] {
      assert forall i :: 0 <= i < |b| ==> b[i] in b;
    } else {
      assert a[0] in b;
      SameFirst(a, b);
      assert a == [a[0]] + a[1..] && b == [b[0]] + b[1..];
      TailAfter(a[0], a[1..]);
      TailAfter(b[0], b[1..]);
      forall r ensures r in a[1..] <==> r in b[1..] {
        assert r in a <==> r == a[0] || r in a[1..];
        assert r in b <==> r == b[0] || r in b[1..];
      }
      OneOrder(a[1..], b[1..]);
    }
  }

  /** The rows that a request may return, in order. */
  lemma OrderedMatches(table: seq<Row>, matches: Row -> bool, cursor: Option<Cursor>)
    requires UniqueIds(table)
    ensures var s := Sort(Select(table, matches, cursor));
      Increasing(s) && forall r :: r in s <==> r in table && matches(r) && Follows(r, cursor)
  {
    SelectMembers(table, matches, cursor);
    SortOrders(Select(table, matches, cursor));
  }

  /** Asking again with the cursor of the k-th row gives exactly the rows after it. */
  lemma CursorCuts(table: seq<Row>, matches: Row -> bool, cursor: Option<Cursor>, k: nat)
    requires UniqueIds(table) && 1 <= k <= |Sort(Select(table, matches, cursor))|
    ensures var s := Sort(Select(table, matches, cursor));
      Sort(Select(table, matches, Some(CursorOf(s[k - 1])))) == s[k..]
  {
    var s := Sort(Select(table, matches, cursor));
    var next := Some(CursorOf(s[k - 1]));
    OrderedMatches(table, matches, cursor);
    OrderedMatches(table, matches, next);
    var t := Sort(Select(table, matches, next));
    assert s[k - 1] in s && Follows(s[k - 1], cursor);
    forall r ensures r in t <==> r in s[k..] {
      CutMember(s, k, r);
    }
    OneOrder(t, s[k..]);
  }

  lemma CutMember(s: seq<Row>, k: nat, r: Row)
    requires Increasing(s) && 1 <= k <= |s|
    ensures r in s[k..] <==> r in s && Follows(r, Some(CursorOf(s[k - 1])))
  {
    var rest, cut := s[k..], Some(CursorOf(s[k - 1]));
    assert forall i :: 0 <= i < |s| ==> (Follows(s[i], cut) <==> i >= k);
    assert forall i :: 0 <= i < |rest| ==> rest[i] == s[k + i];
    assert forall i :: k <= i < |s| ==> s[i] == rest[i - k];
  }

  // ---- Following the cursors over a table that stays the same ----

  /** The rows collected by following cursors; the i-th request sees the i-th table. */
  function Walk(tables: seq<seq<Row>>, matches: Row -> bool, cursor: Option<Cursor>, limit: nat): seq<Row> {
    if tables == [] then []
    else
      var page := ListPage(tables[0], matches, cursor, limit);
      page.rows + if page.next.None? then [] else Walk(tables[1..], matches, page.next, limit)
  }

  /** The number of requests made until a page has no cursor; none if the tables run out first. */
  function Requests(tables: seq<seq<Row>>, matches: Row -> bool, cursor: Option<Cursor>, limit: nat): Option<int> {
    if tables == [] then None
    else
      var page := ListPage(tables[0], matches, cursor, limit);
      if page.next.None? then Some(1)
      else
        var more := Requests(tables[1..], matches, page.next, limit);
        if more.None? then None else Some(1 + more.value)
  }

  function PageCount(n: nat, limit: nat): nat
    requires limit >= 1
  {
    if n <= limit then 1 else 1 + PageCount(n - limit, limit)
  }

  lemma PageCountStep(n: nat, limit: nat)
    requires limit >= 1
    ensures PageCount(n, limit) == if n <= limit then 1 else 1 + PageCount(n - limit, limit)
  {
  }

  /** The least number of pages of `limit` rows that hold n rows, and at least one. */
  function PagesNeeded(n: nat, limit: nat): int
    requires limit >= 1
  {
    if n == 0 then 1 else (n + limit - 1) / limit
  }

  lemma {:induction false} PageCountIsCeiling(n: nat, limit: nat)
    requires limit >= 1
    ensures PageCount(n, limit) == PagesNeeded(n, limit)
  {
    if n > limit {
      PageCountIsCeiling(n - limit, limit);
      OneMorePage(n, limit);
    } else if n > 0 {
      DivisionIsUnique(n + limit - 1, limit, 1);
    }
  }

  lemma OneMorePage(n: nat, limit: nat)
    requires limit >= 1 && n > limit
    ensures (n + limit - 1) / limit == 1 + (n - 1) / limit
  {
    var q := (n - 1) / limit;
    assert q * limit <= n - 1 < q * limit + limit;
    DivisionIsUnique(n + limit - 1, limit, q + 1);
  }

  lemma DivisionIsUnique(m: int, d: int, q: int)
    requires d >= 1 && q * d <= m < q * d + d
    ensures m / d == q
  {
    var k, r := m / d, m % d;
    assert m == k * d + r && 0 <= r < d;
    Product(q + 1, k, d);
    Product(k + 1, q, d);
  }

  lemma Product(a: int, b: int, d: int)
    requires d >= 1
    ensures a <= b ==> a * d <= b * d
  {
  }

  lemma WalkStep(tables: seq<seq<Row>>, matches: Row -> bool, cursor: Option<Cursor>, limit: nat)
    requires limit >= 1 && tables != []
    ensures var s := Sort(Select(tables[0], matches, cursor));
      && (|s| <= limit ==> Walk(tables, matches, cursor, limit) == s && Requests(tables, matches, cursor, limit) == Some(1))
      && (|s| > limit ==>
            var next := Some(CursorOf(s[limit - 1]));
            && Walk(tables, matches, cursor, limit) == s[..limit] + Walk(tables[1..], matches, next, limit)
            && var more := Requests(tables[1..], matches, next, limit);
            Requests(tables, matches, cursor, limit) == if more.None? then None else Some(1 + more.value))
  {
    PageIsPrefix(tables[0], matches, cursor, limit);
  }

  lemma {:induction false} StaticWalk(table: seq<Row>, matches: Row -> bool, cursor: Option<Cursor>, limit: nat,
      tables: seq<seq<Row>>)
    requires limit >= 1 && UniqueIds(table) && forall i :: 0 <= i < |tables| ==> tables[i] == table
    requires |tables| >= PageCount(|Sort(Select(table, matches, cursor))|, limit)
    ensures var s := Sort(Select(table, matches, cursor));
      && Walk(tables, matches, cursor, limit) == s
      && Requests(tables, matches, cursor, limit) == Some(PageCount(|s|, limit))
    decreases |tables|
  {
    hide Walk, Requests, PageCount, Sort, Select, UniqueIds;
    var s := Sort(Select(table, matches, cursor));
    var n, m := |s|, |s| - limit;
    PageCountStep(n, limit);
    WalkStep(tables, matches, cursor, limit);
    if n > limit {
      CursorCuts(table, matches, cursor, limit);
      assert |s[limit..]| == m;
      StaticWalk(table, matches, Some(CursorOf(s[limit - 1])), limit, tables[1..]);
      assert s == s[..limit] + s[limit..];
    }
  }

  /**
   Main theorem: on a table that nobody changes, following the cursors returns every matching row exactly
   once, in order, in the least possible number of requests, whatever rows share a creation time.
   */
  lemma WalkReturnsEachRowOnce(table: seq<Row>, matches: Row -> bool, limit: nat, tables: seq<seq<Row>>)
    requires limit >= 1 && UniqueIds(table) && forall i :: 0 <= i < |tables| ==> tables[i] == table
    requires |tables| >= PagesNeeded(|Select(table, matches, None)|, limit)
    ensures var walked := Walk(tables, matches, None, limit);
      && Increasing(walked) && (forall r :: r in walked <==> r in table && matches(r))
      && Requests(tables, matches, None, limit) == Some(PagesNeeded(|walked|, limit))
  {
    SortLength(Select(table, matches, None));
    PageCountIsCeiling(|Select(table, matches, None)|, limit);
    StaticWalk(table, matches, None, limit, tables);
    OrderedMatches(table, matches, None);
  }

  lemma {:induction false} SortLength(s: seq<Row>)
    ensures |Sort(s)| == |s|
  {
    if s != [] {
      SortLength(s[1..]);
      InsertLength(s[0], Sort(s[1..]));
    }
  }

  lemma {:induction false} InsertLength(x: Row, s: seq<Row>)
    ensures |Insert(x, s)| == |s| + 1
  {
    if s != [] && !Precedes(x, s[0]) {
      InsertLength(x, s[1..]);
    }
  }

  // ---- Following the cursors while rows come and go ----

  ghost predicate Offers(table: seq<Row>, matches: Row -> bool, c: Cursor) {
    exists r :: r in table && matches(r) && CursorOf(r) == c
  }

  /** The row is in the table, and matches, at every request. */
  ghost predicate OfferedThroughout(tables: seq<seq<Row>>, matches: Row -> bool, c: Cursor) {
    forall i :: 0 <= i < |tables| ==> Offers(tables[i], matches, c)
  }

  ghost predicate Returned(rows: seq<Row>, c: Cursor) {
    exists i :: 0 <= i < |rows| && CursorOf(rows[i]) == c
  }

  function FirstPage(s: seq<Row>, limit: nat): Page
    requires limit >= 1
  {
    if |s| <= limit then Page(s, None) else Page(s[..limit], Some(CursorOf(s[limit - 1])))
  }

  /** A page is in order and starts after the cursor. */
  lemma PageInOrder(table: seq<Row>, matches: Row -> bool, cursor: Option<Cursor>, limit: nat)
    requires limit >= 1 && UniqueIds(table)
    ensures var page := ListPage(table, matches, cursor, limit);
      && Increasing(page.rows)
      && (forall r :: r in page.rows ==> r in table && matches(r) && Follows(r, cursor))
      && (page.next.Some? ==> page.rows != [] && page.next.value == CursorOf(page.rows[|page.rows|-1]))
  {
    var s, page := Sort(Select(table, matches, cursor)), ListPage(table, matches, cursor, limit);
    OrderedMatches(table, matches, cursor);
    PageIsPrefix(table, matches, cursor, limit);
    assert forall i :: 0 <= i < |page.rows| ==> page.rows[i] == s[i];
  }

  lemma PageIsPrefix(table: seq<Row>, matches: Row -> bool, cursor: Option<Cursor>, limit: nat)
    requires limit >= 1
    ensures var s := Sort(Select(table, matches, cursor));
      ListPage(table, matches, cursor, limit) == FirstPage(s, limit)
  {
    var s := Sort(Select(table, matches, cursor));
    assert |s| > limit + 1 ==> s[..limit + 1][..limit] == s[..limit];
  }

  /** Oldest first, and by id where the times are equal. */
  ghost predicate InTimeOrder(rows: seq<Row>) {
    forall i, j :: 0 <= i < j < |rows| ==>
      rows[i].createdAt < rows[j].createdAt || (rows[i].createdAt == rows[j].createdAt && rows[i].id < rows[j].id)
  }

  /** Later than the row the cursor names, or of the same time with a greater id. */
  ghost predicate Past(r: Row, cursor: Option<Cursor>) {
    cursor.Some? ==> r.createdAt > cursor.value.createdAt || (r.createdAt == cursor.value.createdAt && r.id > cursor.value.id)
  }

  /** What a page is: the least `limit` rows that match and come after the cursor, and whether there are more. */
  ghost predicate IsPage(page: Page, table: seq<Row>, matches: Row -> bool, cursor: Option<Cursor>, limit: nat) {
    && InTimeOrder(page.rows) && |page.rows| <= limit
    && (forall r :: r in page.rows ==> r in table && matches(r) && Past(r, cursor))
    && (forall r :: r in table && matches(r) && Past(r, cursor) ==>
          r in page.rows || (page.next.Some? && Past(r, page.next)))
    && (page.next.Some? ==>
          && |page.rows| == limit && page.rows != []
          && page.next.value.createdAt == page.rows[|page.rows|-1].createdAt
          && page.next.value.id == page.rows[|page.rows|-1].id
          && exists r :: r in table && matches(r) && Past(r, page.next))
  }

  lemma PastAgrees(cursor: Option<Cursor>)
    ensures forall r :: Past(r, cursor) <==> Follows(r, cursor)
  {
  }

  lemma OrderAgrees(rows: seq<Row>)
    ensures InTimeOrder(rows) <==> Increasing(rows)
  {
  }

  /** The rows after the first `limit` ones come after the cursor of the page. */
  lemma RestFollows(s: seq<Row>, limit: nat)
    requires Increasing(s) && 1 <= limit < |s|
    ensures forall i :: limit <= i < |s| ==> Follows(s[i], Some(CursorOf(s[limit - 1])))
  {
    assert forall i :: limit <= i < |s| ==> Precedes(s[limit - 1], s[i]);
  }

  lemma ListPageIsPage(table: seq<Row>, matches: Row -> bool, cursor: Option<Cursor>, limit: nat)
    requires limit >= 1 && UniqueIds(table)
    ensures IsPage(ListPage(table, matches, cursor, limit), table, matches, cursor, limit)
  {
    hide Past, Follows, InTimeOrder, Increasing, Precedes, UniqueIds, Sort, Select, ListPage;
    var s, page := Sort(Select(table, matches, cursor)), ListPage(table, matches, cursor, limit);
    OrderedMatches(table, matches, cursor);
    PageIsPrefix(table, matches, cursor, limit);
    PageInOrder(table, matches, cursor, limit);
    OrderAgrees(page.rows);
    PastAgrees(cursor);
    PastAgrees(page.next);
    if page.next.Some? {
      RestFollows(s, limit);
      assert s[limit] in s;
    }
    forall r | r in s ensures r in page.rows || (page.next.Some? && Follows(r, page.next)) {
      var i :| 0 <= i < |s| && s[i] == r;
      assert i < limit ==> page.rows[i] == r;
    }
  }

  lemma SamePage(page: Page, table: seq<Row>, p: Row -> bool, q: Row -> bool, cursor: Option<Cursor>, limit: nat)
    requires IsPage(page, table, p, cursor, limit) && forall r :: p(r) <==> q(r)
    ensures IsPage(page, table, q, cursor, limit)
  {
  }

  /** The execution list answers with such a page of the tenant's executions that meet every filter given. */
  lemma ExecutionsAreListed(table: seq<Row>, tenant: Id, f: ExecutionFilter, cursor: Option<Cursor>, limit: nat)
    requires limit >= 1 && UniqueIds(table)
    ensures var page := ListExecutions(table, tenant, f, cursor, limit);
      var wanted := (r: Row) =>
        && r.data.ExecutionData? && r.data.tenant == tenant
        && (f.status == None || f.status == Some(r.data.status)) && (f.workflow == None || f.workflow == Some(r.data.workflow))
        && !(f.createdAfter.Some? && r.createdAt < f.createdAfter.value)
        && !(f.createdBefore.Some? && r.createdAt > f.createdBefore.value);
      IsPage(page, table, wanted, cursor, limit)
  {
    var matches := (r: Row) => WantedExecution(r, tenant, f);
    var wanted := (r: Row) =>
      && r.data.ExecutionData? && r.data.tenant == tenant
      && (f.status == None || f.status == Some(r.data.status)) && (f.workflow == None || f.workflow == Some(r.data.workflow))
      && !(f.createdAfter.Some? && r.createdAt < f.createdAfter.value)
      && !(f.createdBefore.Some? && r.createdAt > f.createdBefore.value);
    ListPageIsPage(table, matches, cursor, limit);
    SamePage(ListExecutions(table, tenant, f, cursor, limit), table, matches, wanted, cursor, limit);
  }

  /** The workflow list answers with such a page of the tenant's workflows that meet every filter given. */
  lemma WorkflowsAreListed(table: seq<Row>, tenant: Id, f: WorkflowFilter, cursor: Option<Cursor>, limit: nat)
    requires limit >= 1 && UniqueIds(table)
    ensures var page := ListWorkflows(table, tenant, f, cursor, limit);
      var wanted := (r: Row) =>
        && r.data.WorkflowData? && r.data.tenant == tenant
        && (f.triggerType == None || f.triggerType == Some(r.data.triggerType)) && (f.isActive == None || f.isActive == Some(r.data.isActive));
      IsPage(page, table, wanted, cursor, limit)
  {
    var matches := (r: Row) => WantedWorkflow(r, tenant, f);
    var wanted := (r: Row) =>
      && r.data.WorkflowData? && r.data.tenant == tenant
      && (f.triggerType == None || f.triggerType == Some(r.data.triggerType)) && (f.isActive == None || f.isActive == Some(r.data.isActive));
    ListPageIsPage(table, matches, cursor, limit);
    SamePage(ListWorkflows(table, tenant, f, cursor, limit), table, matches, wanted, cursor, limit);
  }

  /** A page passes over no row up to its own cursor. */
  lemma PageCovers(table: seq<Row>, matches: Row -> bool, cursor: Option<Cursor>, limit: nat, c: Cursor)
    requires limit >= 1 && UniqueIds(table) && Offers(table, matches, c) && Beyond(c, cursor)
    ensures var page := ListPage(table, matches, cursor, limit);
      Returned(page.rows, c) || (page.next.Some? && Beyond(c, page.next))
  {
    var s, page := Sort(Select(table, matches, cursor)), ListPage(table, matches, cursor, limit);
    OrderedMatches(table, matches, cursor);
    PageIsPrefix(table, matches, cursor, limit);
    var r :| r in table && matches(r) && CursorOf(r) == c;
    assert r in s;
    var i :| 0 <= i < |s| && s[i] == r;
    if i < limit {
      assert CursorOf(page.rows[i]) == c;
    } else {
      assert Precedes(s[limit - 1], s[i]);
    }
  }

  /** The row was in the table at some request. */
  ghost predicate Listed(tables: seq<seq<Row>>, r: Row) {
    exists i :: 0 <= i < |tables| && r in tables[i]
  }

  lemma ListedEarlier(tables: seq<seq<Row>>, r: Row)
    requires tables != [] && (r in tables[0] || Listed(tables[1..], r))
    ensures Listed(tables, r)
  {
    if r !in tables[0] {
      var i :| 0 <= i < |tables[1..]| && r in tables[1..][i];
      assert r in tables[i + 1];
    }
  }

  lemma {:induction false} WalkMembers(tables: seq<seq<Row>>, matches: Row -> bool, cursor: Option<Cursor>, limit: nat)
    requires limit >= 1 && forall i :: 0 <= i < |tables| ==> UniqueIds(tables[i])
    ensures var walked := Walk(tables, matches, cursor, limit);
      && Increasing(walked)
      && (forall r :: r in walked ==> matches(r) && Follows(r, cursor) && Listed(tables, r))
  {
    hide ListPage, Listed, UniqueIds;
    if tables != [] {
      var page := ListPage(tables[0], matches, cursor, limit);
      PageInOrder(tables[0], matches, cursor, limit);
      forall r | r in page.rows || Listed(tables[1..], r) ensures Listed(tables, r) {
        ListedEarlier(tables, r);
      }
      if page.next.Some? {
        var rest := Walk(tables[1..], matches, page.next, limit);
        WalkMembers(tables[1..], matches, page.next, limit);
        assert page.rows[|page.rows|-1] in page.rows;
        JoinIncreasing(page.rows, rest);
      }
    }
  }

  lemma JoinIncreasing(a: seq<Row>, b: seq<Row>)
    requires Increasing(a) && Increasing(b) && a != []
    requires forall r :: r in b ==> Follows(r, Some(CursorOf(a[|a|-1])))
    ensures Increasing(a + b)
  {
    forall i, j | 0 <= i < j < |a + b| ensures Precedes((a + b)[i], (a + b)[j]) {
      if i < |a| <= j {
        assert b[j - |a|] in b;
        assert i == |a| - 1 || Precedes(a[i], a[|a|-1]);
      }
    }
  }

  lemma {:induction false} WalkCovers(tables: seq<seq<Row>>, matches: Row -> bool, cursor: Option<Cursor>, limit: nat,
      c: Cursor)
    requires limit >= 1 && forall i :: 0 <= i < |tables| ==> UniqueIds(tables[i])
    requires Requests(tables, matches, cursor, limit).Some?
    requires OfferedThroughout(tables, matches, c) && Beyond(c, cursor)
    ensures Returned(Walk(tables, matches, cursor, limit), c)
  {
    var page := ListPage(tables[0], matches, cursor, limit);
    PageCovers(tables[0], matches, cursor, limit, c);
    var walked := Walk(tables, matches, cursor, limit);
    if Returned(page.rows, c) {
      var i :| 0 <= i < |page.rows| && CursorOf(page.rows[i]) == c;
      assert walked[i] == page.rows[i];
    } else {
      assert OfferedThroughout(tables[1..], matches, c) by {
        forall i | 0 <= i < |tables[1..]| ensures Offers(tables[1..][i], matches, c) {
          assert Offers(tables[i + 1], matches, c);
        }
      }
      WalkCovers(tables[1..], matches, page.next, limit, c);
      var rest := Walk(tables[1..], matches, page.next, limit);
      var i :| 0 <= i < |rest| && CursorOf(rest[i]) == c;
      assert walked[|page.rows| + i] == rest[i];
    }
  }

  /** A row keeps its creation time. */
  ghost predicate CreatedOnce(tables: seq<seq<Row>>) {
    forall i, j, r, q :: 0 <= i < |tables| && 0 <= j < |tables| && r in tables[i] && q in tables[j] && r.id == q.id ==>
      r.createdAt == q.createdAt
  }

  /**
   Main theorem: even when rows are inserted, deleted or changed between the requests, no row is returned
   twice, the order is kept, and a finished walk returns every row that was there and matched throughout.
   */
  lemma WalkSurvivesChanges(tables: seq<seq<Row>>, matches: Row -> bool, limit: nat)
    requires limit >= 1 && CreatedOnce(tables) && forall i :: 0 <= i < |tables| ==> UniqueIds(tables[i])
    ensures var walked := Walk(tables, matches, None, limit);
      && Increasing(walked) && UniqueIds(walked)
      && (forall r :: r in walked ==> matches(r) && Listed(tables, r))
      && (Requests(tables, matches, None, limit).Some? ==>
            forall c :: OfferedThroughout(tables, matches, c) ==> Returned(walked, c))
  {
    var walked := Walk(tables, matches, None, limit);
    WalkMembers(tables, matches, None, limit);
    forall i, j | 0 <= i < j < |walked| ensures walked[i].id != walked[j].id {
      assert walked[i] in walked && walked[j] in walked && Precedes(walked[i], walked[j]);
    }
    if Requests(tables, matches, None, limit).Some? {
      forall c | OfferedThroughout(tables, matches, c) ensures Returned(walked, c) {
        WalkCovers(tables, matches, None, limit, c);
      }
    }
  }
}
