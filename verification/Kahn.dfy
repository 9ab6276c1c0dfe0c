/**
 Kahn's algorithm with a FIFO queue. `KahnOrder` is the order in which nodes leave the queue; it is
 the specification of the run-time sort and of the pass that measures the depth of a workflow.
 */
module Kahn {
  import opened Common
  import opened DepGraph

  /** In-degrees that are left, and the nodes whose in-degree has reached zero. */
  datatype Frontier = Frontier(deg: map<Id, int>, queue: seq<Id>)

  function Decrement(f: Frontier, c: Id): Frontier
    requires c in f.deg
  {
    var d := f.deg[c] - 1;
    Frontier(f.deg[c := d], if d == 0 then f.queue + [c] else f.queue)
  }

  ghost predicate Covers(f: Frontier, kids: seq<Id>) {
    forall c :: c in kids ==> c in f.deg
  }

  /** Decrements each child in turn. */
  ghost function Relax(kids: seq<Id>, f: Frontier): (r: Frontier)
    requires Covers(f, kids)
    ensures r.deg.Keys == f.deg.Keys
  {
    if kids == [] then f
    else Decrement(Relax(kids[..|kids|-1], f), kids[|kids|-1])
  }

  ghost function Positive(deg: map<Id, int>): set<Id> {
    set n | n in deg && deg[n] > 0
  }

  /** Nodes that are queued or may still be queued: the work left. */
  ghost function Work(f: Frontier): nat {
    |f.queue| + |Positive(f.deg)|
  }

  lemma DecrementWork(f: Frontier, c: Id)
    requires c in f.deg
    ensures Work(Decrement(f, c)) == Work(f)
  {
    var r := Decrement(f, c);
    if f.deg[c] == 1 {
      assert Positive(r.deg) == Positive(f.deg) - {c};
    } else {
      assert Positive(r.deg) == Positive(f.deg);
    }
  }

  lemma {:induction false} RelaxWork(kids: seq<Id>, f: Frontier)
    requires Covers(f, kids)
    ensures Work(Relax(kids, f)) == Work(f)
  {
    if kids != [] {
      RelaxWork(kids[..|kids|-1], f);
      DecrementWork(Relax(kids[..|kids|-1], f), kids[|kids|-1]);
    }
  }

  lemma ChildrenCovered(g: Graph, n: Id, f: Frontier)
    requires WellFormed(g) && f.deg.Keys == g.deps.Keys
    ensures Covers(f, Children(g, n))
  {
    forall c | c in Children(g, n) ensures c in f.deg {
      ChildrenCount(g, n, c);
    }
  }

  ghost predicate Sized(g: Graph, f: Frontier) {
    WellFormed(g) && f.deg.Keys == g.deps.Keys
  }

  /** The queue after its head has been taken out and its children decremented. */
  ghost function Pop(g: Graph, f: Frontier): (r: Frontier)
    requires Sized(g, f) && f.queue != []
    ensures Sized(g, r) && Work(r) + 1 == Work(f)
  {
    var rest := f.(queue := f.queue[1..]);
    ChildrenCovered(g, f.queue[0], rest);
    RelaxWork(Children(g, f.queue[0]), rest);
    Relax(Children(g, f.queue[0]), rest)
  }

  ghost function KahnFrom(g: Graph, f: Frontier): seq<Id>
    requires Sized(g, f)
    decreases Work(f)
  {
    if f.queue == [] then [] else [f.queue[0]] + KahnFrom(g, Pop(g, f))
  }

  ghost function InDegrees(g: Graph): map<Id, int> {
    map n | n in g.deps :: |g.deps[n]|
  }

  /** The nodes among `nodes` without dependencies, in order. */
  ghost function Roots(nodes: seq<Id>, deps: map<Id, seq<Id>>): seq<Id> {
    if nodes == [] then []
    else
      var last := nodes[|nodes|-1];
      Roots(nodes[..|nodes|-1], deps) + if last in deps && deps[last] == [] then [last] else []
  }

  ghost function Start(g: Graph): Frontier {
    Frontier(InDegrees(g), Roots(g.nodes, g.deps))
  }

  ghost function KahnOrder(g: Graph): seq<Id>
    requires WellFormed(g)
  {
    KahnFrom(g, Start(g))
  }

  // ---- Counting the dependencies that are still open ----

  /** How many mentions in `ds` are not done yet. */
  ghost function Open(ds: seq<Id>, done: set<Id>): nat {
    if ds == [] then 0
    else Open(ds[..|ds|-1], done) + if ds[|ds|-1] in done then 0 else 1
  }

  lemma {:induction false} OpenAfter(ds: seq<Id>, done: set<Id>, x: Id)
    requires x !in done
    ensures Open(ds, done + {x}) == Open(ds, done) - Count(ds, x)
  {
    if ds != [] {
      OpenAfter(ds[..|ds|-1], done, x);
    }
  }

  lemma {:induction false} OpenZero(ds: seq<Id>, done: set<Id>)
    ensures Open(ds, done) == 0 <==> forall d :: d in ds ==> d in done
  {
    if ds != [] {
      OpenZero(ds[..|ds|-1], done);
      assert ds == ds[..|ds|-1] + [ds[|ds|-1]];
    }
  }

  lemma {:induction false} OpenAtFirst(ds: seq<Id>)
    ensures Open(ds, {}) == |ds|
  {
    if ds != [] {
      OpenAtFirst(ds[..|ds|-1]);
    }
  }

  // ---- What one pop does ----

  ghost predicate Released(f: Frontier, kids: seq<Id>, c: Id) {
    c in f.deg && 0 < f.deg[c] <= Count(kids, c)
  }

  lemma {:induction false} RelaxEffect(kids: seq<Id>, f: Frontier)
    requires Covers(f, kids)
    ensures forall c :: c in f.deg ==> Relax(kids, f).deg[c] == f.deg[c] - Count(kids, c)
    ensures f.queue <= Relax(kids, f).queue
    ensures Distinct(Relax(kids, f).queue[|f.queue|..])
    ensures forall c :: c in Relax(kids, f).queue[|f.queue|..] <==> Released(f, kids, c)
  {
    if kids != [] {
      var init, last := kids[..|kids|-1], kids[|kids|-1];
      RelaxEffect(init, f);
      var r, s := Relax(init, f), Relax(kids, f);
      var before, after := r.queue[|f.queue|..], s.queue[|f.queue|..];
      if r.deg[last] == 1 {
        assert after == before + [last];
        assert !Released(f, init, last);
      } else {
        assert after == before;
      }
      forall c ensures c in after <==> Released(f, kids, c) {
        assert c in after <==> c in before || (r.deg[last] == 1 && c == last);
        assert Released(f, init, c) <==> c in before;
      }
    }
  }

  /** The loop invariant of both Kahn passes; `out` holds the nodes that have left the queue. */
  ghost predicate Sorting(g: Graph, out: seq<Id>, f: Frontier) {
    && Sized(g, f)
    && Distinct(out + f.queue)
    && (forall n :: n in g.deps ==> f.deg[n] == Open(g.deps[n], Elems(out)))
    && (forall n :: n in out + f.queue <==> n in g.deps && f.deg[n] == 0)
    && DepsFirst(g, out)
  }

  lemma {:induction false} RootsAre(nodes: seq<Id>, deps: map<Id, seq<Id>>)
    requires Distinct(nodes)
    ensures Distinct(Roots(nodes, deps))
    ensures forall n :: n in Roots(nodes, deps) <==> n in nodes && n in deps && deps[n] == []
  {
    if nodes != [] {
      var init, last := nodes[..|nodes|-1], nodes[|nodes|-1];
      RootsAre(init, deps);
      assert forall n :: n in nodes <==> n in init || n == last;
    }
  }

  lemma SortingStarts(g: Graph)
    requires WellFormed(g)
    ensures Sorting(g, [], Start(g))
  {
    NodesAreKeys(g);
    RootsAre(g.nodes, g.deps);
    var f := Start(g);
    assert [] + f.queue == f.queue;
    assert Elems<Id>([]) == {};
    forall n | n in g.deps ensures f.deg[n] == Open(g.deps[n], Elems([])) {
      OpenAtFirst(g.deps[n]);
    }
  }

  /** The head of the queue has all its dependencies behind it, and does not depend on itself. */
  lemma HeadIsReady(g: Graph, out: seq<Id>, f: Frontier)
    requires Sorting(g, out, f) && f.queue != []
    ensures f.queue[0] in g.deps && f.queue[0] !in out
    ensures forall d :: d in g.deps[f.queue[0]] ==> d in out
  {
    var x := f.queue[0];
    assert (out + f.queue)[|out|] == x;
    assert forall i :: 0 <= i < |out| ==> (out + f.queue)[i] == out[i];
    assert x in out + f.queue;
    OpenZero(g.deps[x], Elems(out));
  }

  lemma PopDegrees(g: Graph, out: seq<Id>, f: Frontier)
    requires Sorting(g, out, f) && f.queue != []
    ensures forall n :: n in g.deps ==>
      Pop(g, f).deg[n] == f.deg[n] - Count(g.deps[n], f.queue[0]) == Open(g.deps[n], Elems(out + [f.queue[0]]))
  {
    var x := f.queue[0];
    HeadIsReady(g, out, f);
    var rest := f.(queue := f.queue[1..]);
    ChildrenCovered(g, x, rest);
    RelaxEffect(Children(g, x), rest);
    assert Elems(out + [x]) == Elems(out) + {x};
    forall n | n in g.deps
      ensures Pop(g, f).deg[n] == f.deg[n] - Count(g.deps[n], x) == Open(g.deps[n], Elems(out + [x]))
    {
      ChildrenCount(g, x, n);
      OpenAfter(g.deps[n], Elems(out), x);
    }
  }

  /** The nodes that join the queue are those whose last open dependency is the popped node. */
  lemma PopQueue(g: Graph, out: seq<Id>, f: Frontier) returns (pushed: seq<Id>)
    requires Sorting(g, out, f) && f.queue != []
    ensures Pop(g, f).queue == f.queue[1..] + pushed && Distinct(pushed)
    ensures forall n :: n in pushed <==> n in g.deps && f.deg[n] > 0 && Pop(g, f).deg[n] == 0
    ensures forall n :: n in pushed ==> Edge(g, f.queue[0], n)
  {
    var x := f.queue[0];
    var rest := f.(queue := f.queue[1..]);
    ChildrenCovered(g, x, rest);
    RelaxEffect(Children(g, x), rest);
    PopDegrees(g, out, f);
    var r := Pop(g, f);
    pushed := r.queue[|rest.queue|..];
    assert r.queue == rest.queue + pushed;
    forall n ensures n in pushed <==> n in g.deps && f.deg[n] > 0 && r.deg[n] == 0 {
      ChildrenCount(g, x, n);
      assert n in pushed <==> Released(rest, Children(g, x), n);
    }
    forall n | n in pushed ensures Edge(g, x, n) {
      ChildrenCount(g, x, n);
      assert Released(rest, Children(g, x), n);
      CountMember(Children(g, x), n);
    }
  }

  lemma DepsFirstGrows(g: Graph, out: seq<Id>, x: Id)
    requires DepsFirst(g, out)
    requires x in g.deps ==> forall d :: d in g.deps[x] ==> d in out
    ensures DepsFirst(g, out + [x])
  {
    var o := out + [x];
    forall i, d | 0 <= i < |o| && o[i] in g.deps && d in g.deps[o[i]] ensures d in o[..i] {
      assert o[..i] == out[..i];
    }
  }

  lemma DistinctAppend(a: seq<Id>, b: seq<Id>)
    requires Distinct(a) && Distinct(b) && forall x :: x in a ==> x !in b
    ensures Distinct(a + b)
  {
    var c := a + b;
    forall i, j | 0 <= i < j < |c| ensures c[i] != c[j] {
      if i < |a| {
        assert c[i] in a;
      }
      if j >= |a| {
        assert c[j] in b;
      }
    }
  }

  lemma Regroup(out: seq<Id>, queue: seq<Id>, pushed: seq<Id>)
    requires queue != []
    ensures out + [queue[0]] + (queue[1..] + pushed) == (out + queue) + pushed
  {
    assert queue == [queue[0]] + queue[1..];
  }

  /** The nodes seen so far are again exactly those whose in-degree is down to zero. */
  lemma PopSeen(g: Graph, out: seq<Id>, f: Frontier)
    requires Sorting(g, out, f) && f.queue != []
    ensures Distinct(out + [f.queue[0]] + Pop(g, f).queue)
    ensures forall n :: n in out + [f.queue[0]] + Pop(g, f).queue <==> n in g.deps && Pop(g, f).deg[n] == 0
  {
    var r := Pop(g, f);
    PopDegrees(g, out, f);
    var pushed := PopQueue(g, out, f);
    var before := out + f.queue;
    Regroup(out, f.queue, pushed);
    DistinctAppend(before, pushed);
    forall n ensures n in before + pushed <==> n in g.deps && r.deg[n] == 0 {
      assert n in before <==> n in g.deps && f.deg[n] == 0;
    }
  }

  /** A node whose in-degree is down to zero has all its dependencies among the nodes popped so far. */
  lemma ReleasedIsReady(g: Graph, out: seq<Id>, f: Frontier, n: Id)
    requires Sorting(g, out, f) && f.queue != [] && n in g.deps && Pop(g, f).deg[n] == 0
    ensures forall d :: d in g.deps[n] ==> d in out + [f.queue[0]]
  {
    PopDegrees(g, out, f);
    OpenZero(g.deps[n], Elems(out + [f.queue[0]]));
  }

  lemma SortingStep(g: Graph, out: seq<Id>, f: Frontier)
    requires Sorting(g, out, f) && f.queue != []
    ensures Sorting(g, out + [f.queue[0]], Pop(g, f))
  {
    HeadIsReady(g, out, f);
    PopDegrees(g, out, f);
    PopSeen(g, out, f);
    DepsFirstGrows(g, out, f.queue[0]);
  }

  lemma {:induction false} SortingEnds(g: Graph, out: seq<Id>, f: Frontier) returns (last: Frontier)
    requires Sorting(g, out, f)
    ensures Sorting(g, out + KahnFrom(g, f), last) && last.queue == []
    decreases Work(f)
  {
    if f.queue == [] {
      assert out + KahnFrom(g, f) == out;
      last := f;
    } else {
      SortingStep(g, out, f);
      last := SortingEnds(g, out + [f.queue[0]], Pop(g, f));
      assert out + KahnFrom(g, f) == out + [f.queue[0]] + KahnFrom(g, Pop(g, f));
    }
  }

  // ---- The theorems about the order ----

  lemma OrderSorting(g: Graph) returns (last: Frontier)
    requires WellFormed(g)
    ensures Sorting(g, KahnOrder(g), last) && last.queue == []
  {
    SortingStarts(g);
    last := SortingEnds(g, [], Start(g));
    assert [] + KahnOrder(g) == KahnOrder(g);
  }

  /** The order never repeats a node, and lists only nodes whose dependencies all stand before them. */
  lemma OrderIsSound(g: Graph)
    requires WellFormed(g)
    ensures Distinct(KahnOrder(g)) && Elems(KahnOrder(g)) <= g.deps.Keys && DepsFirst(g, KahnOrder(g))
  {
    var last := OrderSorting(g);
    assert KahnOrder(g) + last.queue == KahnOrder(g);
    forall n | n in Elems(KahnOrder(g)) ensures n in g.deps {
      assert n in KahnOrder(g) + last.queue;
    }
  }

  lemma LeftOversAreStuck(g: Graph, out: seq<Id>, f: Frontier)
    requires Sorting(g, out, f) && f.queue == [] && Closed(g)
    ensures Stuck(g, g.deps.Keys - Elems(out))
    ensures Elems(out) <= g.deps.Keys
  {
    var waiting := g.deps.Keys - Elems(out);
    assert out + f.queue == out;
    forall n | n in Elems(out) ensures n in g.deps {
      assert n in out + f.queue;
    }
    forall n | n in waiting ensures Waits(g, waiting, n) {
      assert f.deg[n] != 0;
      OpenZero(g.deps[n], Elems(out));
      var d :| d in g.deps[n] && d !in Elems(out);
      assert Edge(g, d, n);
    }
  }

  lemma SomethingLeft(a: set<Id>, b: set<Id>)
    requires a <= b && a != b
    ensures b - a != {}
  {
    var n :| n in b && n !in a;
    assert n in b - a;
  }

  lemma IncompleteHasCycle(g: Graph)
    requires WellFormed(g) && Closed(g) && Elems(KahnOrder(g)) != g.deps.Keys
    ensures !Acyclic(g)
  {
    var order := KahnOrder(g);
    var last := OrderSorting(g);
    LeftOversAreStuck(g, order, last);
    SomethingLeft(Elems(order), g.deps.Keys);
    StuckHasCycle(g, g.deps.Keys - Elems(order));
  }

  /** For a dependency-closed graph the sort lists every node exactly when there is no cycle. */
  lemma OrderIsCompleteIffAcyclic(g: Graph)
    requires WellFormed(g) && Closed(g)
    ensures Acyclic(g) <==> Elems(KahnOrder(g)) == g.deps.Keys
  {
    var order := KahnOrder(g);
    OrderIsSound(g);
    if Elems(order) == g.deps.Keys {
      OrderedIsAcyclic(g, order);
    } else {
      IncompleteHasCycle(g);
    }
  }

  /** On a closed acyclic graph the order is a permutation of the nodes. */
  lemma OrderIsPermutation(g: Graph)
    requires WellFormed(g) && Closed(g) && Acyclic(g)
    ensures Distinct(KahnOrder(g)) && Elems(KahnOrder(g)) == Elems(g.nodes) && |KahnOrder(g)| == |g.nodes|
    ensures DepsFirst(g, KahnOrder(g))
  {
    OrderIsSound(g);
    OrderIsCompleteIffAcyclic(g);
    DistinctCard(KahnOrder(g));
    DistinctCard(g.nodes);
  }

  lemma OrderUnfolds(g: Graph, out: seq<Id>, f: Frontier)
    requires Sized(g, f) && f.queue != []
    ensures out + KahnFrom(g, f) == out + [f.queue[0]] + KahnFrom(g, Pop(g, f))
  {
  }

  // ---- The loops that both passes share ----

  method DecrementChild(inDegree0: map<Id, int>, queue0: seq<Id>, child: Id) returns (inDegree: map<Id, int>, queue: seq<Id>)
    requires child in inDegree0
    ensures Frontier(inDegree, queue) == Decrement(Frontier(inDegree0, queue0), child)
  {
    inDegree, queue := inDegree0[child := inDegree0[child] - 1], queue0;
    if inDegree[child] == 0 {
      queue := queue + [child];
    }
  }

  method CountMentions(before: map<Id, int>, node: Id, ds: seq<Id>) returns (inDegree: map<Id, int>)
    requires node in before
    ensures inDegree == before[node := before[node] + |ds|]
  {
    inDegree := before;
    var j := 0;
    while j < |ds|
      invariant 0 <= j <= |ds|
      invariant inDegree == before[node := before[node] + j]
    {
      inDegree := inDegree[node := inDegree[node] + 1];
      j := j + 1;
    }
  }

  /** The nodes whose in-degree is zero, in the order in which the dictionary lists its keys. */
  method InitialQueue(ghost g: Graph, keys: seq<Id>, inDegree: map<Id, int>) returns (queue: seq<Id>)
    requires WellFormed(g) && keys == g.nodes && inDegree == InDegrees(g)
    ensures queue == Roots(g.nodes, g.deps)
  {
    NodesAreKeys(g);
    queue := [];
    var i := 0;
    while i < |keys|
      invariant 0 <= i <= |keys|
      invariant queue == Roots(g.nodes[..i], g.deps)
    {
      assert g.nodes[..i+1][..i] == g.nodes[..i];
      if inDegree[keys[i]] == 0 {
        queue := queue + [keys[i]];
      }
      i := i + 1;
    }
    assert g.nodes[..|g.nodes|] == g.nodes;
  }
}
