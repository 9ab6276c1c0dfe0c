/**
 The dependency graph of a workflow: an insertion-ordered dictionary from each step id to the ids
 it depends on. A dependency may be repeated, so edges carry multiplicities.
 */
module DepGraph {
  import opened Common

  datatype Graph = Graph(nodes: seq<Id>, deps: map<Id, seq<Id>>)

  ghost predicate WellFormed(g: Graph) {
    Distinct(g.nodes) && Elems(g.nodes) == g.deps.Keys
  }

  ghost predicate Closed(g: Graph) {
    forall n, d :: n in g.deps && d in g.deps[n] ==> d in g.deps
  }

  /** `to` lists `from` among its dependencies. */
  ghost predicate Edge(g: Graph, from: Id, to: Id) {
    to in g.deps && from in g.deps[to]
  }

  ghost predicate IsPath(g: Graph, p: seq<Id>) {
    forall i, j :: 0 <= i < j < |p| && j == i + 1 ==> Edge(g, p[i], p[j])
  }

  ghost predicate IsCycle(g: Graph, c: seq<Id>) {
    |c| >= 2 && c[0] == c[|c|-1] && IsPath(g, c)
  }

  /** A closed walk along dependency edges that repeats nothing but its end point. */
  ghost predicate SimpleCycle(g: Graph, c: seq<Id>) {
    IsCycle(g, c) && Distinct(c[1..])
  }

  ghost predicate Acyclic(g: Graph) {
    forall c :: !IsCycle(g, c)
  }

  /** Every dependency of a listed node stands before it. */
  ghost predicate DepsFirst(g: Graph, order: seq<Id>) {
    forall i, d :: 0 <= i < |order| && order[i] in g.deps && d in g.deps[order[i]] ==> d in order[..i]
  }

  // ---- Ranks refute cycles ----

  ghost predicate Ranked(g: Graph, rank: map<Id, int>) {
    forall a, b :: Edge(g, a, b) && a in g.deps ==> a in rank && b in rank && rank[a] < rank[b]
  }

  lemma {:induction false} RankAlongPath(g: Graph, rank: map<Id, int>, p: seq<Id>)
    requires Ranked(g, rank) && IsPath(g, p) && |p| >= 2 && p[0] in g.deps
    ensures p[0] in rank && p[|p|-1] in rank && rank[p[0]] < rank[p[|p|-1]]
  {
    assert Edge(g, p[0], p[1]);
    if |p| > 2 {
      SubPath(g, p, 1, |p|);
      RankAlongPath(g, rank, p[1..]);
    }
  }

  lemma RankedIsAcyclic(g: Graph, rank: map<Id, int>)
    requires Ranked(g, rank)
    ensures Acyclic(g)
  {
    forall c ensures !IsCycle(g, c) {
      if IsCycle(g, c) {
        assert Edge(g, c[|c|-2], c[|c|-1]);
        RankAlongPath(g, rank, c);
        assert false;
      }
    }
  }

  /** A listing of all nodes with dependencies first shows that there is no cycle. */
  lemma OrderedIsAcyclic(g: Graph, order: seq<Id>)
    requires g.deps.Keys <= Elems(order) && Distinct(order) && DepsFirst(g, order)
    ensures Acyclic(g)
  {
    var rank := map n | n in Elems(order) :: Position(order, n) as int;
    forall a, b | Edge(g, a, b) && a in g.deps ensures a in rank && b in rank && rank[a] < rank[b] {
      var i := Position(order, b);
      assert a in order[..i];
    }
    RankedIsAcyclic(g, rank);
  }

  ghost function Position(s: seq<Id>, x: Id): (i: nat)
    requires x in s
    ensures i < |s| && s[i] == x
  {
    var i :| 0 <= i < |s| && s[i] == x; i
  }

  // ---- A set in which everybody waits for somebody contains a cycle ----

  ghost predicate Waits(g: Graph, waiting: set<Id>, n: Id) {
    exists d :: d in waiting && Edge(g, d, n)
  }

  ghost predicate Stuck(g: Graph, waiting: set<Id>) {
    forall n :: n in waiting ==> Waits(g, waiting, n)
  }

  lemma PrependPath(g: Graph, d: Id, q: seq<Id>)
    requires IsPath(g, q) && |q| > 0 && Edge(g, d, q[0])
    ensures IsPath(g, [d] + q)
  {
    var p := [d] + q;
    forall i, j | 0 <= i < j < |p| && j == i + 1 ensures Edge(g, p[i], p[j]) {
      if i > 0 {
        assert Edge(g, q[i-1], q[j-1]);
      }
    }
  }

  lemma AppendPath(g: Graph, q: seq<Id>, n: Id)
    requires IsPath(g, q) && |q| > 0 && Edge(g, q[|q|-1], n)
    ensures IsPath(g, q + [n])
  {
    var p := q + [n];
    forall i, j | 0 <= i < j < |p| && j == i + 1 ensures Edge(g, p[i], p[j]) {
      if j < |q| {
        assert Edge(g, q[i], q[j]);
      }
    }
  }

  lemma SubPath(g: Graph, p: seq<Id>, i: nat, j: nat)
    requires IsPath(g, p) && i <= j <= |p|
    ensures IsPath(g, p[i..j])
  {
    var c := p[i..j];
    forall k, l | 0 <= k < l < |c| && l == k + 1 ensures Edge(g, c[k], c[l]) {
      assert Edge(g, p[i+k], p[i+l]);
    }
  }

  lemma {:induction false} StuckWalk(g: Graph, waiting: set<Id>, start: Id, k: nat) returns (p: seq<Id>)
    requires Stuck(g, waiting) && start in waiting
    ensures |p| == k + 1 && IsPath(g, p) && Elems(p) <= waiting
    decreases k
  {
    if k == 0 {
      p := [start];
    } else {
      var q := StuckWalk(g, waiting, start, k - 1);
      assert q[0] in waiting;
      assert Waits(g, waiting, q[0]);
      var d :| d in waiting && Edge(g, d, q[0]);
      PrependPath(g, d, q);
      p := [d] + q;
    }
  }

  lemma StuckHasCycle(g: Graph, waiting: set<Id>)
    requires Stuck(g, waiting) && waiting != {}
    ensures !Acyclic(g)
  {
    var start :| start in waiting;
    var p := StuckWalk(g, waiting, start, |waiting|);
    var i, j := Pigeonhole(p, waiting);
    var c := p[i..j+1];
    SubPath(g, p, i, j + 1);
    assert IsCycle(g, c);
  }

  // ---- The reversed adjacency list ----

  function Repeat(x: Id, k: nat): (s: seq<Id>) {
    seq(k, i => x)
  }

  /** The nodes among `nodes` that depend on `n`, in order, once per mention. */
  ghost function Dependents(nodes: seq<Id>, deps: map<Id, seq<Id>>, n: Id): seq<Id>
    requires forall m :: m in nodes ==> m in deps
  {
    if nodes == [] then []
    else
      var last := nodes[|nodes|-1];
      Dependents(nodes[..|nodes|-1], deps, n) + Repeat(last, Count(deps[last], n))
  }

  ghost function Children(g: Graph, n: Id): seq<Id>
    requires WellFormed(g)
  {
    NodesAreKeys(g);
    Dependents(g.nodes, g.deps, n)
  }

  lemma NodesAreKeys(g: Graph)
    requires WellFormed(g)
    ensures forall m :: m in g.nodes <==> m in g.deps
  {
    forall m ensures m in g.nodes <==> m in g.deps {
      assert m in g.nodes <==> m in Elems(g.nodes);
    }
  }

  lemma {:induction false} CountRepeat(x: Id, k: nat, y: Id)
    ensures Count(Repeat(x, k), y) == if x == y then k else 0
  {
    if k > 0 {
      assert Repeat(x, k)[..k-1] == Repeat(x, k - 1);
      CountRepeat(x, k - 1, y);
    }
  }

  lemma {:induction false} DependentsCount(nodes: seq<Id>, deps: map<Id, seq<Id>>, n: Id, c: Id)
    requires forall m :: m in nodes ==> m in deps
    requires Distinct(nodes)
    ensures Count(Dependents(nodes, deps, n), c) == if c in nodes then Count(deps[c], n) else 0
  {
    if nodes != [] {
      var init, last := nodes[..|nodes|-1], nodes[|nodes|-1];
      DependentsCount(init, deps, n, c);
      CountRepeat(last, Count(deps[last], n), c);
      CountConcat(Dependents(init, deps, n), Repeat(last, Count(deps[last], n)), c);
      assert c in nodes <==> c in init || c == last;
    }
  }

  /** An edge of multiplicity k appears k times in the reversed list. */
  lemma ChildrenCount(g: Graph, n: Id, c: Id)
    requires WellFormed(g)
    ensures Count(Children(g, n), c) == if c in g.deps then Count(g.deps[c], n) else 0
    ensures c in Children(g, n) <==> Edge(g, n, c)
  {
    NodesAreKeys(g);
    DependentsCount(g.nodes, g.deps, n, c);
    CountMember(Children(g, n), c);
    if c in g.deps {
      CountMember(g.deps[c], n);
    }
  }

  function Get(m: map<Id, seq<Id>>, n: Id): seq<Id> {
    if n in m then m[n] else []
  }

  /** One pass of the inner loop: `node` joins the list of each of its dependencies, once per mention. */
  method AppendDependent(before: map<Id, seq<Id>>, node: Id, ds: seq<Id>) returns (children: map<Id, seq<Id>>)
    ensures forall n :: Get(children, n) == Get(before, n) + Repeat(node, Count(ds, n))
  {
    children := before;
    var j := 0;
    while j < |ds|
      invariant 0 <= j <= |ds|
      invariant forall n :: Get(children, n) == Get(before, n) + Repeat(node, Count(ds[..j], n))
    {
      assert ds[..j+1][..j] == ds[..j];
      assert Repeat(node, Count(ds[..j], ds[j]) + 1) == Repeat(node, Count(ds[..j], ds[j])) + [node];
      ghost var grown := Get(children, ds[j]) + [node];
      assert grown == Get(before, ds[j]) + Repeat(node, Count(ds[..j+1], ds[j]));
      children := children[ds[j] := Get(children, ds[j]) + [node]];
      j := j + 1;
    }
    assert ds[..|ds|] == ds;
  }

  /** Builds the reversed adjacency list of the graph. */
  method BuildChildren(g: Graph) returns (children: map<Id, seq<Id>>)
    requires WellFormed(g)
    ensures forall n :: Get(children, n) == Children(g, n)
  {
    NodesAreKeys(g);
    children := map[];
    var i := 0;
    while i < |g.nodes|
      invariant 0 <= i <= |g.nodes|
      invariant forall n :: Get(children, n) == Dependents(g.nodes[..i], g.deps, n)
    {
      assert g.nodes[..i+1][..i] == g.nodes[..i];
      children := AppendDependent(children, g.nodes[i], g.deps[g.nodes[i]]);
      i := i + 1;
    }
    assert g.nodes[..|g.nodes|] == g.nodes;
  }
}
